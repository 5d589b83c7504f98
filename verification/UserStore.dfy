/** The users table as the storage layer drives it: rows by primary key, with the two
    unique indexes kept beside them. Every method refines the statement it runs. */
module UserStores {
  import opened Values
  import opened Accounts
  import opened UpsertQuery
  import A = Accounts

  /** Errors of the storage layer: the mapped one, and everything else. */
  datatype StoreError = EmailInUse | Sql(error: DbError)

  /** Only a violation of users_email_key becomes ErrEmailInUse. */
  function MapUpsertError(e: DbError): StoreError {
    if e == Violates(EmailKey) then EmailInUse else Sql(e)
  }

  class UserStore {
    var rows: map<UserId, User>
    var nextAppId: int
    var byEmail: map<string, UserId>
    var byIdentity: map<Identity, UserId>

    ghost function Table(): Accounts
      reads this
    {
      Accounts(rows, nextAppId)
    }

    /** Both indexes agree with the rows, in both directions. */
    ghost predicate IndexesAgree()
      reads this
    {
      && (forall e :: e in byEmail ==> byEmail[e] in rows && rows[byEmail[e]].email == e)
      && (forall i :: i in byIdentity ==> byIdentity[i] in rows && rows[byIdentity[i]].identity == i)
      && (forall id :: id in rows ==> rows[id].email in byEmail && byEmail[rows[id].email] == id)
      && (forall id :: id in rows ==> rows[id].identity in byIdentity && byIdentity[rows[id].identity] == id)
    }

    ghost predicate Valid()
      reads this
    {
      IndexesAgree() && A.Valid(Table())
    }

    constructor ()
      ensures Valid() && Table() == NO_ACCOUNTS
    {
      rows, nextAppId, byEmail, byIdentity := map[], 1, map[], map[];
    }

    lemma IndexesFind(email: string, identity: Identity)
      requires IndexesAgree()
      ensures FindByEmail(rows, email) == if email in byEmail then Some(byEmail[email]) else None
      ensures FindByIdentity(rows, identity) == if identity in byIdentity then Some(byIdentity[identity]) else None
    {
    }

    lemma IndexShowsOther(email: string, id: UserId)
      requires IndexesAgree()
      ensures EmailHeldByOther(rows, email, Some(id)) <==> email in byEmail && byEmail[email] != id
    {
    }

    /** Write a row over one already there, and move its index entries. */
    method Replace(id: UserId, row: User)
      requires IndexesAgree() && id in rows
      requires !EmailHeldByOther(rows, row.email, Some(id))
      requires row.identity in byIdentity ==> byIdentity[row.identity] == id
      modifies this`rows, this`byEmail, this`byIdentity
      ensures IndexesAgree() && rows == old(rows)[id := row]
    {
      IndexShowsOther(row.email, id);
      byEmail := (byEmail - {rows[id].email})[row.email := id];
      byIdentity := (byIdentity - {rows[id].identity})[row.identity := id];
      rows := rows[id := row];
    }

    method Insert(row: User) returns (r: Result<User, DbError>)
      requires IndexesAgree()
      modifies this
      ensures IndexesAgree()
      ensures Write(Table(), r) == A.Insert(old(Table()), row)
    {
      IndexesFind(row.email, row.identity);
      nextAppId := nextAppId + 1;
      if row.id in rows {
        return Err(Violates(PrimaryKey));
      }
      if row.email in byEmail {
        return Err(Violates(EmailKey));
      }
      if row.identity in byIdentity {
        return Err(Violates(ProviderKey));
      }
      assert forall id :: id in rows ==> rows[id].email != row.email && rows[id].identity != row.identity;
      rows := rows[row.id := row];
      byEmail := byEmail[row.email := row.id];
      byIdentity := byIdentity[row.identity := row.id];
      return Ok(row);
    }

    /** The login upsert through the indexes: identity first, then verified e-mail. */
    method UpsertByProvider(info: Profile, newId: UserId, now: Time) returns (r: Result<User, StoreError>)
      requires Valid()
      modifies this
      ensures Valid()
      ensures var w := Upsert(old(Table()), info, newId, now);
        && Table() == w.table
        && r == match w.result case Ok(u) => Ok(u) case Err(e) => Err(MapUpsertError(e))
      ensures newId !in old(rows) ==>
        QueryProduces(old(Table()), info, newId, now, rows, if r.Ok? then Some(r.value) else None)
      ensures newId !in old(rows) && r.Err? ==> r.error == EmailInUse && rows == old(rows)
    {
      ghost var t := Table();
      if newId !in rows {
        UpsertRule(t, info, newId, now);
        QueryProducesUpsert(t, info, newId, now);
      }
      IndexesFind(info.email, info.identity);
      UpsertKeepsKeys(t, info, newId, now);
      var target: Option<UserId> := None;
      if info.identity in byIdentity {
        target := Some(byIdentity[info.identity]);
      } else if info.emailVerified && info.email in byEmail {
        target := Some(byEmail[info.email]);
      }
      if target.None? {
        var inserted := Insert(FirstLogin(info, newId, nextAppId, now));
        match inserted
        case Ok(u) => r := Ok(u);
        case Err(e) => r := Err(MapUpsertError(e));
      } else {
        var id := target.value;
        IndexShowsOther(info.email, id);
        if info.email in byEmail && byEmail[info.email] != id {
          return Err(EmailInUse);
        }
        var row := Relinked(rows[id], info, now);
        Replace(id, row);
        r := Ok(row);
      }
    }

    /** Empty roles become the default ones. */
    method Create(d: Draft, newId: UserId, now: Time) returns (r: Result<User, DbError>)
      requires Valid()
      modifies this
      ensures Valid()
      ensures Write(Table(), r) == A.Create(old(Table()), d, newId, now)
    {
      InsertKeepsKeys(Table(), Drafted(d, newId, nextAppId, now));
      r := Insert(Drafted(d, newId, nextAppId, now));
    }

    method Update(id: UserId, patch: Patch) returns (r: Result<User, DbError>)
      requires Valid()
      modifies this`rows, this`byEmail, this`byIdentity
      ensures Valid()
      ensures Write(Table(), r) == A.Update(old(Table()), id, patch)
    {
      UpdateKeepsKeys(Table(), id, patch);
      IndexShowsOther(patch.email, id);
      if id !in rows {
        return Err(NoRows);
      }
      if patch.email in byEmail && byEmail[patch.email] != id {
        return Err(Violates(EmailKey));
      }
      var row := Patched(rows[id], patch);
      Replace(id, row);
      r := Ok(row);
    }

    /** None means that no row was selected: the role is held, the roles are NULL, or
        there is no such user. */
    method AddRole(id: UserId, role: string) returns (r: Option<User>)
      requires Valid()
      modifies this`rows, this`byEmail, this`byIdentity
      ensures Valid()
      ensures var w := A.AddRole(old(Table()), id, role);
        Table() == w.table && r == match w.result case Ok(u) => Some(u) case Err(_) => None
    {
      AddRoleKeepsKeys(Table(), id, role);
      if id !in rows || rows[id].roles.None? || role in rows[id].roles.value {
        return None;
      }
      var row := rows[id].(roles := Some(rows[id].roles.value + [role]));
      IndexShowsOther(row.email, id);
      Replace(id, row);
      r := Some(row);
    }

    method Remove(id: UserId)
      requires IndexesAgree() && id in rows
      modifies this`rows, this`byEmail, this`byIdentity
      ensures IndexesAgree() && rows == old(rows) - {id}
    {
      byEmail := byEmail - {rows[id].email};
      byIdentity := byIdentity - {rows[id].identity};
      rows := rows - {id};
    }

    method Delete(id: UserId) returns (deleted: bool)
      requires Valid()
      modifies this`rows, this`byEmail, this`byIdentity
      ensures Valid()
      ensures deleted == (id in old(rows)) && rows == old(rows) - {id}
    {
      deleted := id in rows;
      DeleteKeepsKeys(Table(), id);
      if deleted {
        Remove(id);
      } else {
        assert rows - {id} == rows;
      }
    }
  }
}
