/** The bootstrap grant in the interleaving machine: whom it can reach when other logins
    and administration come between an admission and its grant. */
module Grants {
  import opened Values
  import opened Accounts
  import opened Database
  import opened AuthFlow
  import opened Dance

  // ---- A row is what the last statement about it answered ----

  /** Action k ran a statement that answered with this row. */
  ghost predicate Writes(cfg: Config, acts: seq<Action>, k: nat, row: User)
    requires k < |acts|
  {
    var s := Run(cfg, acts[..k]);
    var cmd := Ran(cfg, s, acts[k]);
    cmd.Some? && Exec(s.db, cmd.value, s.now).reply == UserRow(row)
  }

  /** Action k did, and no later one before n answered with that account. */
  ghost predicate LastWrite(cfg: Config, acts: seq<Action>, k: nat, n: nat, row: User)
    requires k < n <= |acts|
  {
    && Writes(cfg, acts, k, row)
    && forall l: nat, later: User :: k < l < n && Writes(cfg, acts, l, later) ==> later.id != row.id
  }

  lemma {:induction false} RunStep(cfg: Config, acts: seq<Action>, k: nat)
    requires k < |acts|
    ensures Run(cfg, acts[..k + 1]) == Step(cfg, Run(cfg, acts[..k]), acts[k]).sys
  {
    hide Step;
    assert acts[..k + 1][..k] == acts[..k];
  }

  lemma {:induction false} AnswersRow(db: Db, cmd: Cmd, now: Time, id: UserId)
    requires RowsNumbered(db.accounts)
    ensures var o := Exec(db, cmd, now);
      if o.reply.UserRow? && o.reply.user.id == id
      then id in o.db.Users() && o.db.Users()[id] == o.reply.user
      else id in o.db.Users() ==> id in db.Users() && o.db.Users()[id] == db.Users()[id]
  {
    if !WritesAccounts(cmd) {
      OthersKeepAccounts(db, cmd, now);
    }
  }

  lemma {:induction false} WriteStep(cfg: Config, acts: seq<Action>, n: nat, id: UserId)
    requires n < |acts| && id in Run(cfg, acts[..n + 1]).db.Users()
    ensures var before, row := Run(cfg, acts[..n]).db.Users(), Run(cfg, acts[..n + 1]).db.Users()[id];
      || (Writes(cfg, acts, n, row) && row.id == id)
      || (&& id in before && before[id] == row
          && forall other: User :: Writes(cfg, acts, n, other) ==> other.id != id)
  {
    var s := Run(cfg, acts[..n]);
    assert RowsNumbered(s.db.accounts) by {
      DatabaseIsStatementRun(cfg, acts[..n]);
    }
    RunStep(cfg, acts, n);
    StepRuns(cfg, s, acts[n]);
    var cmd := Ran(cfg, s, acts[n]);
    if cmd.Some? {
      AnswersRow(s.db, cmd.value, s.now, id);
    }
    hide Exec, Step, Ran, Run, RowsNumbered;
  }

  /** In every run, every row of the users table is the one the last statement about that
      account answered with. */
  lemma {:induction false} RowIsLastWritten(cfg: Config, acts: seq<Action>, n: nat, id: UserId) returns (k: nat)
    requires n <= |acts| && id in Run(cfg, acts[..n]).db.Users()
    ensures Run(cfg, acts[..n]).db.Users()[id].id == id
    ensures k < n && LastWrite(cfg, acts, k, n, Run(cfg, acts[..n]).db.Users()[id])
  {
    hide Step, Writes;
    if n > 0 {
      WriteStep(cfg, acts, n - 1, id);
      hide Run;
      var row := Run(cfg, acts[..n]).db.Users()[id];
      if Writes(cfg, acts, n - 1, row) && row.id == id {
        k := n - 1;
      } else {
        k := RowIsLastWritten(cfg, acts, n - 1, id);
      }
    }
  }

  // ---- Where a callback's row comes from ----

  /** A callback awaiting its grant was put there by its own exchange, with the active row
      that login answered. */
  lemma {:induction false} AwaitsGrantStep(cfg: Config, s: Sys, a: Action, flow: nat)
    requires var s' := Step(cfg, s, a).sys; flow in s'.flows && s'.flows[flow].stage.AwaitGrant?
    ensures var f := Step(cfg, s, a).sys.flows[flow];
      || (flow in s.flows && s.flows[flow] == f)
      || (&& a.Exchange? && a.flow == flow && f.stage.user.active && Ran(cfg, s, a).Some?
          && Exec(s.db, Ran(cfg, s, a).value, s.now).reply == UserRow(f.stage.user))
  {
    hide Exec, Bootstrap, BrowserBegin, RpcBegin, BrowserStart;
  }

  lemma {:induction false} AdmissionOf(cfg: Config, acts: seq<Action>, n: nat, flow: nat) returns (i: nat)
    requires n <= |acts| && flow in Run(cfg, acts[..n]).flows
    requires Run(cfg, acts[..n]).flows[flow].stage.AwaitGrant?
    ensures var user := Run(cfg, acts[..n]).flows[flow].stage.user;
      i < n && acts[i].Exchange? && acts[i].flow == flow && Writes(cfg, acts, i, user) && user.active
  {
    if n > 0 {
      var s := Run(cfg, acts[..n - 1]);
      RunStep(cfg, acts, n - 1);
      AwaitsGrantStep(cfg, s, acts[n - 1], flow);
      hide Step, Exec, Ran, Run;
      if flow in s.flows && s.flows[flow] == Run(cfg, acts[..n]).flows[flow] {
        i := AdmissionOf(cfg, acts, n - 1, flow);
      } else {
        i := n - 1;
      }
    }
  }

  // ---- What a grant does ----

  ghost predicate ActiveAndListed(cfg: Config, u: User) {
    u.active && ToLower(u.email) in cfg.admins
  }

  /** The grant applies to this row: the callback was admitted to it, with a listed e-mail,
      and its roles are neither NULL nor hold admin already. */
  ghost predicate Reaches(cfg: Config, s: Sys, flow: nat, id: UserId) {
    && flow in s.flows && s.flows[flow].stage.AwaitGrant? && id in s.db.Users()
    && s.flows[flow].stage.user.id == id && ToLower(s.flows[flow].stage.user.email) in cfg.admins
    && s.db.Users()[id].roles.Some? && ADMIN_ROLE !in s.db.Users()[id].roles.value
  }

  lemma {:induction false} GrantRows(cfg: Config, s: Sys, flow: nat, id: UserId)
    requires RowsNumbered(s.db.accounts) && id in s.db.Users()
    ensures var was, rows := s.db.Users()[id], GrantStep(cfg, s, flow).sys.db.Users();
      && id in rows
      && rows[id] == if Reaches(cfg, s, flow, id) then was.(roles := Some(was.roles.value + [ADMIN_ROLE])) else was
  {
    if flow in s.flows && s.flows[flow].stage.AwaitGrant? {
      BootstrapWrites(cfg, s.db, s.flows[flow].stage.user, s.now);
    }
    hide Bootstrap, ToLower;
  }

  lemma {:induction false} OthersKeepRoles(cfg: Config, s: Sys, a: Action, id: UserId)
    requires Consistent(s.db) && id in s.db.Users() && !a.Statement? && !a.Grant?
    ensures var rows := Step(cfg, s, a).sys.db.Users();
      id in rows && rows[id].roles == s.db.Users()[id].roles
  {
    if a.Exchange? && a.flow in s.flows {
      AdmitRow(cfg, s.db, s.flows[a.flow].provider, a.fetched, a.newId, s.now);
    }
    if a.Issue? && a.flow in s.flows && s.flows[a.flow].stage.AwaitIssue? {
      OthersKeepAccounts(s.db, CreateSession(a.sessionToken, s.flows[a.flow].stage.user.id, cfg.sessionTtl), s.now);
    }
    hide Exec, Admit, Bootstrap, Consistent, BrowserStart, BrowserBegin, RpcBegin;
  }

  /** Of all the steps of logins only a grant changes roles, and only those of the account
      its callback was admitted to, when that admission was active and its e-mail listed:
      it appends admin to non-NULL roles without it, and leaves every other column. */
  lemma {:induction false} OnlyGrantsChangeRoles(cfg: Config, acts: seq<Action>, a: Action, id: UserId)
    requires !a.Statement? && id in Run(cfg, acts).db.Users()
    ensures var s := Run(cfg, acts);
      var was, rows := s.db.Users()[id], Step(cfg, s, a).sys.db.Users();
      && id in rows
      && (rows[id].roles != was.roles <==> a.Grant? && Reaches(cfg, s, a.flow, id))
      && (rows[id].roles != was.roles ==>
        var state := s.flows[a.flow].state;
        && rows[id] == was.(roles := Some(was.roles.value + [ADMIN_ROLE]))
        && state in s.admitted && s.admitted[state].id == id
        && ActiveAndListed(cfg, s.admitted[state]))
  {
    var s := Run(cfg, acts);
    DatabaseIsStatementRun(cfg, acts);
    RunsTrackAccounts(cfg, acts);
    if a.Grant? {
      assert RowsNumbered(s.db.accounts);
      GrantRows(cfg, s, a.flow, id);
      hide Run, GrantStep, Consistent, ToLower;
    } else {
      OthersKeepRoles(cfg, s, a, id);
    }
  }

  /** When the granted account is disabled or unlisted. The grant of action n, admitted by
      action i, changes a row that is then inactive, or whose e-mail is not listed, exactly
      when some statement came between the two and the last one to answer with that account
      left it so. Nothing in between, and it is the active listed row of the admission. */
  lemma {:induction false} GrantReachesOthersExactly(cfg: Config, acts: seq<Action>, n: nat, id: UserId)
    returns (i: nat)
    requires n < |acts| && acts[n].Grant? && Reaches(cfg, Run(cfg, acts[..n]), acts[n].flow, id)
    ensures var admitted := Run(cfg, acts[..n]).flows[acts[n].flow].stage.user;
      i < n && acts[i].Exchange? && acts[i].flow == acts[n].flow && Writes(cfg, acts, i, admitted)
    ensures var rows := Run(cfg, acts[..n + 1]).db.Users();
      && id in rows && rows[id].Holds(ADMIN_ROLE)
      && (!ActiveAndListed(cfg, rows[id]) <==>
            exists k: nat, row: User ::
              i < k < n && LastWrite(cfg, acts, k, n, row) && row.id == id && !ActiveAndListed(cfg, row))
  {
    var s := Run(cfg, acts[..n]);
    assert RowsNumbered(s.db.accounts) by {
      DatabaseIsStatementRun(cfg, acts[..n]);
    }
    RunStep(cfg, acts, n);
    GrantRows(cfg, s, acts[n].flow, id);
    i := AdmissionOf(cfg, acts, n, acts[n].flow);
    var last := RowIsLastWritten(cfg, acts, n, id);
    hide Run, GrantStep, RowsNumbered, ToLower, Writes;
    assert i <= last;
    if last == i {
      OneAnswer(cfg, acts, i, s.db.Users()[id], s.flows[acts[n].flow].stage.user);
    }
    forall k: nat, row: User | i < k < n && LastWrite(cfg, acts, k, n, row) && row.id == id
      ensures k == last && row == s.db.Users()[id]
    {
      OneAnswer(cfg, acts, last, s.db.Users()[id], row);
    }
  }

  lemma {:induction false} OneAnswer(cfg: Config, acts: seq<Action>, k: nat, a: User, b: User)
    requires k < |acts|
    ensures Writes(cfg, acts, k, a) && Writes(cfg, acts, k, b) ==> a == b
  {
  }

  /** The failing interleaving: an administrator disables the listed account just admitted
      and gives it an unlisted e-mail; the grant then makes it an administrator. */
  lemma {:induction false} GrantAfterDisabling(cfg: Config, s: Sys, flow: nat, patch: Patch)
    requires Consistent(s.db) && flow in s.flows && s.flows[flow].stage.AwaitGrant?
    requires var u := s.flows[flow].stage.user; u.id in s.db.Users() && ToLower(u.email) in cfg.admins
    requires !patch.active && ToLower(patch.email) !in cfg.admins
    requires patch.roles.Some? && ADMIN_ROLE !in patch.roles.value
    requires forall other :: other in s.db.Users() ==> s.db.Users()[other].email != patch.email
    ensures var id := s.flows[flow].stage.user.id;
      var disabled := Step(cfg, s, Statement(UpdateUser(id, patch))).sys;
      var rows := Step(cfg, disabled, Grant(flow)).sys.db.Users();
      && id in rows && !rows[id].active && ToLower(rows[id].email) !in cfg.admins && rows[id].Holds(ADMIN_ROLE)
  {
    var id := s.flows[flow].stage.user.id;
    var update := UpdateUser(id, patch);
    var disabled := Step(cfg, s, Statement(update)).sys;
    UpdateRule(s.db.accounts, id, patch);
    ExecConsistent(s.db, update, s.now);
    assert RowsNumbered(disabled.db.accounts);
    GrantRows(cfg, disabled, flow, id);
    hide GrantStep, ToLower, Consistent;
  }

  // ---- A run that gets there ----

  lemma {:induction false} RunAppend(cfg: Config, acts: seq<Action>, a: Action)
    ensures Run(cfg, acts + [a]) == Step(cfg, Run(cfg, acts), a).sys
  {
    hide Step;
    assert (acts + [a])[..|acts|] == acts;
  }

  /** The first login of a system: start, callback, code exchange. */
  function UpToExchange(provider: string, fetched: Fetched, newId: UserId, state: string, code: string): seq<Action> {
    [Start(Rpc, provider, "", state), Begin(0, Rpc, provider, "", state, code)] + [Exchange(0, Some(fetched), newId)]
  }

  lemma {:induction false} BegunReached(cfg: Config, provider: string, state: string, code: string)
    requires provider in cfg.providers && cfg.stateTtl >= 0
    ensures var s := Run(cfg, [Start(Rpc, provider, "", state), Begin(0, Rpc, provider, "", state, code)]);
      s.db == EMPTY && s.flows == map[0 := Flow(Rpc, state, provider, "", AwaitExchange)]
  {
    var a0, a1 := Start(Rpc, provider, "", state), Begin(0, Rpc, provider, "", state, code);
    RunAppend(cfg, [], a0);
    RunAppend(cfg, [a0], a1);
    assert [] + [a0] == [a0] && [a0] + [a1] == [a0, a1];
    assert Run(cfg, []) == INITIAL;
    hide Run;
  }

  /** It leaves the new account alone in the table, waiting for its grant. */
  lemma {:induction false} ExchangeReached(
      cfg: Config, provider: string, fetched: Fetched, newId: UserId, state: string, code: string)
    requires provider in cfg.providers && fetched.email != "" && cfg.stateTtl >= 0
    ensures var s := Run(cfg, UpToExchange(provider, fetched, newId, state, code));
      var user := FirstLogin(ProfileOf(provider, fetched), newId, 1, s.now);
      && s.db.Users() == map[newId := user]
      && s.flows == map[0 := Flow(Rpc, state, provider, "", AwaitGrant(user))]
  {
    var begun := [Start(Rpc, provider, "", state), Begin(0, Rpc, provider, "", state, code)];
    BegunReached(cfg, provider, state, code);
    RunAppend(cfg, begun, Exchange(0, Some(fetched), newId));
    hide Run;
  }

  /** The failing interleaving happens in a run from the empty system. */
  lemma {:induction false} GrantAfterDisablingReached(
      cfg: Config, provider: string, fetched: Fetched, newId: UserId, state: string, code: string, patch: Patch)
    requires provider in cfg.providers && fetched.email != "" && ToLower(fetched.email) in cfg.admins
    requires cfg.stateTtl >= 0 && !patch.active && ToLower(patch.email) !in cfg.admins
    requires patch.roles.Some? && ADMIN_ROLE !in patch.roles.value
    ensures var acts := UpToExchange(provider, fetched, newId, state, code);
      var rows := Run(cfg, acts + [Statement(UpdateUser(newId, patch))] + [Grant(0)]).db.Users();
      newId in rows && !rows[newId].active && ToLower(rows[newId].email) !in cfg.admins && rows[newId].Holds(ADMIN_ROLE)
  {
    var acts := UpToExchange(provider, fetched, newId, state, code);
    ExchangeReached(cfg, provider, fetched, newId, state, code);
    RunAppend(cfg, acts, Statement(UpdateUser(newId, patch)));
    RunAppend(cfg, acts + [Statement(UpdateUser(newId, patch))], Grant(0));
    DatabaseIsStatementRun(cfg, acts);
    GrantAfterDisabling(cfg, Run(cfg, acts), 0, patch);
    hide Run, Step, Consistent, ToLower;
  }
}
