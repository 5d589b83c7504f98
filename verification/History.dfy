/** Runs of the database: any sequence of timed statements, from the empty schema. */
module History {
  import opened Values
  import opened Database

  datatype Step = Step(at: Time, cmd: Cmd)

  type Trace = seq<Step>

  ghost function After(tr: Trace): Db {
    if tr == [] then EMPTY
    else Exec(After(tr[..|tr| - 1]), tr[|tr| - 1].cmd, tr[|tr| - 1].at).db
  }

  /** What step i answered. */
  ghost function ReplyAt(tr: Trace, i: nat): Reply
    requires i < |tr|
  {
    Exec(After(tr[..i]), tr[i].cmd, tr[i].at).reply
  }

  lemma {:induction false} AfterStep(tr: Trace, i: nat)
    requires i < |tr|
    ensures After(tr[..i + 1]) == Exec(After(tr[..i]), tr[i].cmd, tr[i].at).db
  {
    assert tr[..i + 1][..i] == tr[..i];
  }

  /** Keys and foreign keys hold after every run: no session, token or membership
      ever names a missing user, no group a missing owner. */
  lemma {:induction false} RunsConsistent(tr: Trace)
    ensures Consistent(After(tr))
  {
    if tr != [] {
      var last := |tr| - 1;
      RunsConsistent(tr[..last]);
      ExecConsistent(After(tr[..last]), tr[last].cmd, tr[last].at);
    }
  }

  // ---- Application ids ----

  /** The sequence only grows. A row present on both sides of a statement keeps its
      app id; a row that appears draws the next value. */
  lemma {:induction false} AppIdStep(db: Db, cmd: Cmd, now: Time, id: UserId)
    ensures var db' := Exec(db, cmd, now).db;
      && db.accounts.nextAppId <= db'.accounts.nextAppId
      && (id in db'.Users() && id in db.Users() ==> db'.Users()[id].appId == db.Users()[id].appId)
      && (id in db'.Users() && id !in db.Users() ==>
            db'.Users()[id].appId == db.accounts.nextAppId < db'.accounts.nextAppId)
  {
    if !WritesAccounts(cmd) {
      OthersKeepAccounts(db, cmd, now);
    }
  }

  /** Ids below the sequence stay with the one account that drew them, or with none. */
  lemma {:induction false} AppIdsNotReassigned(tr: Trace, i: nat, j: nat, x: UserId, y: UserId)
    requires i <= j <= |tr|
    requires x in After(tr[..i]).Users() && y in After(tr[..j]).Users()
    requires After(tr[..i]).Users()[x].appId == After(tr[..j]).Users()[y].appId
    ensures x == y
    decreases j - i
  {
    hide Exec;
    if i == j {
      RunsConsistent(tr[..i]);
    } else {
      SequenceGrows(tr, i, j - 1);
      AppIdBelowSequence(tr[..i], x);
      AfterStep(tr, j - 1);
      AppIdStep(After(tr[..j - 1]), tr[j - 1].cmd, tr[j - 1].at, y);
      AppIdsNotReassigned(tr, i, j - 1, x, y);
    }
  }

  lemma {:induction false} AppIdBelowSequence(tr: Trace, x: UserId)
    requires x in After(tr).Users()
    ensures After(tr).Users()[x].appId < After(tr).accounts.nextAppId
  {
    RunsConsistent(tr);
  }

  lemma {:induction false} AppIdPositive(tr: Trace, x: UserId)
    requires x in After(tr).Users()
    ensures After(tr).Users()[x].appId >= 1
  {
    RunsConsistent(tr);
  }

  /** An account keeps its app id; one created again under its key has a later one. */
  lemma {:induction false} AppIdNeverFalls(tr: Trace, i: nat, j: nat, x: UserId)
    requires i <= j <= |tr| && x in After(tr[..i]).Users() && x in After(tr[..j]).Users()
    ensures After(tr[..i]).Users()[x].appId <= After(tr[..j]).Users()[x].appId
    decreases j - i
  {
    hide Exec;
    if i < j {
      AppIdBelowSequence(tr[..i], x);
      SequenceGrows(tr, i, j - 1);
      AfterStep(tr, j - 1);
      AppIdStep(After(tr[..j - 1]), tr[j - 1].cmd, tr[j - 1].at, x);
      if x in After(tr[..j - 1]).Users() {
        AppIdNeverFalls(tr, i, j - 1, x);
      }
    }
  }

  lemma {:induction false} SequenceGrows(tr: Trace, i: nat, j: nat)
    requires i <= j <= |tr|
    ensures After(tr[..i]).accounts.nextAppId <= After(tr[..j]).accounts.nextAppId
    decreases j - i
  {
    if i < j {
      SequenceGrows(tr, i, j - 1);
      AfterStep(tr, j - 1);
      AppIdStep(After(tr[..j - 1]), tr[j - 1].cmd, tr[j - 1].at, 0);
    }
  }
}
