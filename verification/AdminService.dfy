/** The administration handlers as the service runs them. */
module AdminServices {
  import opened Values
  import opened Accounts
  import opened Database
  import opened AuthFlow
  import opened Admin
  import opened AuthDatabases
  import A = Accounts
  import D = Database

  /** The draft behind a create request: the wire format has no provider id, an empty
      provider means "local", and new users are active whatever the request says. */
  function DraftOf(provider: string, q: Request): Draft {
    Draft(q.email, q.name, q.avatar, Identity(if provider == "" then "local" else provider, ""), q.roles, true)
  }

  class UserAdmin {
    const db: AuthDatabase

    constructor (db: AuthDatabase)
      ensures this.db == db
    {
      this.db := db;
    }

    /** requireAdmin and ensureNotSelfDemotion. */
    method Check(caller: Claims, id: UserId, q: Request) returns (r: Result<(), AdminError>)
      ensures r == CheckUpdate(db.Snapshot(), caller, id, q)
      ensures r == Err(AdminRequired) <==> !caller.isAdmin
    {
      if !caller.isAdmin {
        return Err(AdminRequired);
      }
      if ADMIN_ROLE in q.roles {
        return Ok(());
      }
      if id !in db.users.rows {
        return Err(UserNotFound);
      }
      var target := db.users.rows[id];
      if target.appId == Narrow(caller.userId) && target.Holds(ADMIN_ROLE) {
        return Err(SelfDemotion);
      }
      r := Ok(());
    }

    method Update(caller: Claims, id: UserId, q: Request, now: Time) returns (r: Result<User, AdminError>)
      requires db.Valid()
      modifies db.users
      ensures db.Valid()
      ensures !caller.isAdmin ==> r == Err(AdminRequired) && db.Snapshot() == old(db.Snapshot())
      ensures caller.isAdmin ==> r != Err(AdminRequired)
      ensures Updated(db.Snapshot(), r) == CheckedUpdate(old(db.Snapshot()), caller, id, q, now)
    {
      var checked := Check(caller, id, q);
      if checked.Err? {
        return Err(checked.error);
      }
      if !ValidInput(q.name, q.email) {
        return Err(InvalidInput);
      }
      if id !in db.users.rows {
        return Err(UserNotFound);
      }
      ghost var before := db.Snapshot();
      var updated := db.Update(id, PatchOf(q));
      assert Exec(before, UpdateUser(id, PatchOf(q)), now)
          == OfWrite(before, A.Update(before.accounts, id, PatchOf(q)));
      hide Exec;
      match updated
      case Ok(u) => r := Ok(u);
      case Err(_) => r := Err(Internal);
    }

    method Create(caller: Claims, provider: string, q: Request, newId: UserId, now: Time)
      returns (r: Result<User, AdminError>)
      requires db.Valid()
      modifies db.users
      ensures db.Valid()
      ensures !caller.isAdmin ==> r == Err(AdminRequired)
      ensures caller.isAdmin && !ValidInput(q.name, q.email) ==> r == Err(InvalidInput)
      ensures !caller.isAdmin || !ValidInput(q.name, q.email) ==> db.Snapshot() == old(db.Snapshot())
      ensures caller.isAdmin && ValidInput(q.name, q.email) ==>
        var w := A.Create(old(db.Snapshot()).accounts, DraftOf(provider, q), newId, now);
        && db.Snapshot() == old(db.Snapshot()).(accounts := w.table)
        && r == match w.result case Ok(u) => Ok(u) case Err(_) => Err(Internal)
      ensures r.Ok? ==>
        r.value == User(newId, old(db.Snapshot()).accounts.nextAppId, q.email, q.name, q.avatar,
                        Identity(if |provider| == 0 then "local" else provider, ""),
                        Some(if |q.roles| == 0 then ["user"] else q.roles), true, now, None)
    {
      if !caller.isAdmin {
        return Err(AdminRequired);
      }
      if !ValidInput(q.name, q.email) {
        return Err(InvalidInput);
      }
      var created := db.Create(DraftOf(provider, q), newId, now);
      match created
      case Ok(u) => r := Ok(u);
      case Err(_) => r := Err(Internal);
    }

    method Delete(caller: Claims, id: UserId) returns (r: Result<(), AdminError>)
      requires db.Valid()
      modifies db`sessions, db`pats, db`members, db.users
      ensures db.Valid()
      ensures !caller.isAdmin ==> r == Err(AdminRequired) && db.Snapshot() == old(db.Snapshot())
      ensures caller.isAdmin ==>
        var o := D.Delete(old(db.Snapshot()), id);
        && db.Snapshot() == o.db
        && r == if o.reply.Hit() then Ok(()) else if o.reply.Failed? then Err(Internal) else Err(UserNotFound)
    {
      if !caller.isAdmin {
        return Err(AdminRequired);
      }
      if id !in db.users.rows {
        return Err(UserNotFound);
      }
      var deleted := db.Delete(id);
      match deleted
      case Ok(_) => r := Ok(());
      case Err(_) => r := Err(Internal);
    }
  }

  /** Two users created by hand under one provider: the second is refused. */
  lemma {:induction false} SecondHandMadeUserRefused(
      t: Accounts, provider: string, q: Request, newId: UserId, now: Time)
    requires Valid(t)
    requires exists id :: id in t.rows && t.rows[id].identity == DraftOf(provider, q).identity
    ensures A.Create(t, DraftOf(provider, q), newId, now).result.Err?
    ensures A.Create(t, DraftOf(provider, q), newId, now).table.rows == t.rows
  {
  }
}
