/** Which logins own which account, over whole runs. */
module Ownership {
  import opened Values
  import opened Accounts
  import opened Database
  import opened History

  /** A verified login from an identity nobody has yet presents the account's e-mail. */
  predicate Relinks(db: Db, cmd: Cmd, x: UserId)
    requires x in db.Users()
  {
    && cmd.Login?
    && cmd.profile.emailVerified
    && cmd.profile.email == db.Users()[x].email
    && forall id :: id in db.Users() ==> db.Users()[id].identity != cmd.profile.identity
  }

  /** An account's identity pair changes in exactly one kind of step. */
  lemma {:induction false} IdentityChangesExactlyByRelink(db: Db, cmd: Cmd, now: Time, x: UserId)
    requires Consistent(db)
    requires x in db.Users() && x in Exec(db, cmd, now).db.Users()
    ensures Exec(db, cmd, now).db.Users()[x].identity != db.Users()[x].identity <==> Relinks(db, cmd, x)
  {
    if cmd.Login? {
      var own, mail := FindByIdentity(db.Users(), cmd.profile.identity), FindByEmail(db.Users(), cmd.profile.email);
      if Relinks(db, cmd, x) {
        assert own.None? && mail == Some(x);
        assert !EmailHeldByOther(db.Users(), cmd.profile.email, Some(x));
      }
    } else if !WritesAccounts(cmd) {
      OthersKeepAccounts(db, cmd, now);
    }
  }

  /** Step k takes account x away from its identity: it deletes x, or relinks it. */
  ghost predicate TakesAway(tr: Trace, k: nat, x: UserId)
    requires k < |tr|
  {
    var db, cmd := After(tr[..k]), tr[k].cmd;
    x in db.Users() && ((cmd == DeleteUser(x) && ReplyAt(tr, k).Hit()) || Relinks(db, cmd, x))
  }

  /** Step k is a successful login by `who`, answered with account x. */
  ghost predicate LogsIn(tr: Trace, k: nat, who: Identity, x: UserId)
    requires k < |tr|
  {
    && tr[k].cmd.Login? && tr[k].cmd.profile.identity == who
    && ReplyAt(tr, k).UserRow? && ReplyAt(tr, k).user.id == x
  }

  ghost predicate Owns(db: Db, who: Identity, x: UserId) {
    x in db.Users() && db.Users()[x].identity == who
  }

  lemma {:induction false} LoginOwns(db: Db, cmd: Cmd, now: Time)
    requires Consistent(db) && cmd.Login? && Exec(db, cmd, now).reply.UserRow?
    ensures Owns(Exec(db, cmd, now).db, cmd.profile.identity, Exec(db, cmd, now).reply.user.id)
  {
  }

  lemma {:induction false} OwnerReturned(db: Db, cmd: Cmd, now: Time, x: UserId)
    requires Consistent(db) && cmd.Login? && Exec(db, cmd, now).reply.UserRow?
    requires Owns(db, cmd.profile.identity, x)
    ensures Exec(db, cmd, now).reply.user.id == x
  {
  }

  /** One statement: an identity keeps its account unless that takes it away. */
  lemma {:induction false} OwnershipStep(tr: Trace, k: nat, x: UserId, who: Identity)
    requires k < |tr| && Owns(After(tr[..k]), who, x)
    ensures Owns(After(tr[..k + 1]), who, x) <==> !TakesAway(tr, k, x)
  {
    RunsConsistent(tr[..k]);
    AfterStep(tr, k);
    var db, cmd, now := After(tr[..k]), tr[k].cmd, tr[k].at;
    RowsStay(db, cmd, now, x);
    hide Exec, Consistent;
    if x in Exec(db, cmd, now).db.Users() {
      IdentityChangesExactlyByRelink(db, cmd, now, x);
    }
  }

  lemma {:induction false} RowsStay(db: Db, cmd: Cmd, now: Time, x: UserId)
    requires x in db.Users()
    ensures x in Exec(db, cmd, now).db.Users() <==> !(cmd == DeleteUser(x) && Exec(db, cmd, now).reply.Hit())
  {
  }

  /** Login ownership: once `who` has logged in to x at step i, every later successful
      login by `who` is answered with x, until some step takes x away. */
  lemma {:induction false} LoginOwnership(tr: Trace, i: nat, j: nat, who: Identity, x: UserId, y: UserId)
    requires i < j < |tr|
    requires LogsIn(tr, i, who, x) && LogsIn(tr, j, who, y)
    requires forall k :: i < k < j ==> !TakesAway(tr, k, x)
    ensures x == y
  {
    RunsConsistent(tr[..i]);
    AfterStep(tr, i);
    LoginOwns(After(tr[..i]), tr[i].cmd, tr[i].at);
    OwnedUntil(tr, i + 1, j, x, who);
    RunsConsistent(tr[..j]);
    OwnerReturned(After(tr[..j]), tr[j].cmd, tr[j].at, x);
  }

  lemma {:induction false} OwnedUntil(tr: Trace, i: nat, j: nat, x: UserId, who: Identity)
    requires i <= j < |tr| && Owns(After(tr[..i]), who, x)
    requires forall k :: i <= k < j ==> !TakesAway(tr, k, x)
    ensures Owns(After(tr[..j]), who, x)
    decreases j - i
  {
    if i < j {
      OwnedUntil(tr, i, j - 1, x, who);
      OwnershipStep(tr, j - 1, x, who);
    }
  }
}
