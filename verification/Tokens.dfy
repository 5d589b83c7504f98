/** The JWT of an RPC login at the moment it is issued: when its claims are those of an
    active account, and when other statements have overtaken them. */
module Tokens {
  import opened Values
  import opened Accounts
  import opened Database
  import opened AuthFlow
  import opened Dance
  import opened Grants
  import Replay

  // ---- Presence, action by action ----

  /** Action k ran a statement that deleted the account. */
  ghost predicate Removes(cfg: Config, acts: seq<Action>, k: nat, id: UserId)
    requires k < |acts|
  {
    var s := Run(cfg, acts[..k]);
    Ran(cfg, s, acts[k]) == Some(DeleteUser(id)) && Exec(s.db, DeleteUser(id), s.now).reply.Hit()
  }

  /** Action k did, and no later one before n answered with that account. */
  ghost predicate LastRemoval(cfg: Config, acts: seq<Action>, k: nat, n: nat, id: UserId)
    requires k < n <= |acts|
  {
    && Removes(cfg, acts, k, id)
    && forall l: nat, later: User :: k < l < n && Writes(cfg, acts, l, later) ==> later.id != id
  }

  lemma {:induction false} PresenceStep(cfg: Config, acts: seq<Action>, n: nat, id: UserId)
    requires n < |acts|
    ensures id in Run(cfg, acts[..n + 1]).db.Users() <==>
      || (exists row: User :: Writes(cfg, acts, n, row) && row.id == id)
      || (id in Run(cfg, acts[..n]).db.Users() && !Removes(cfg, acts, n, id))
  {
    var s := Run(cfg, acts[..n]);
    assert RowsNumbered(s.db.accounts) by {
      DatabaseIsStatementRun(cfg, acts[..n]);
    }
    RunStep(cfg, acts, n);
    StepRuns(cfg, s, acts[n]);
    var cmd := Ran(cfg, s, acts[n]);
    if cmd.Some? {
      Replay.PresenceStep(s.db, cmd.value, s.now, id);
      var reply := Exec(s.db, cmd.value, s.now).reply;
      assert reply.UserRow? ==> Writes(cfg, acts, n, reply.user);
    }
    hide Exec, Step, Ran, Run, RowsNumbered;
  }

  lemma {:induction false} MissingWasRemoved(cfg: Config, acts: seq<Action>, i: nat, n: nat, row: User)
    returns (k: nat)
    requires i < n <= |acts| && Writes(cfg, acts, i, row) && row.id !in Run(cfg, acts[..n]).db.Users()
    ensures i < k < n && LastRemoval(cfg, acts, k, n, row.id)
  {
    hide Run, Step, Exec, Writes, Removes;
    PresenceStep(cfg, acts, n - 1, row.id);
    assert i < n - 1;
    assert forall later: User :: Writes(cfg, acts, n - 1, later) ==> later.id != row.id;
    if row.id in Run(cfg, acts[..n - 1]).db.Users() {
      k := n - 1;
    } else {
      k := MissingWasRemoved(cfg, acts, i, n - 1, row);
    }
  }

  lemma {:induction false} RemovedIsMissing(cfg: Config, acts: seq<Action>, k: nat, n: nat, id: UserId)
    requires k < n <= |acts| && LastRemoval(cfg, acts, k, n, id)
    ensures id !in Run(cfg, acts[..n]).db.Users()
  {
    PresenceStep(cfg, acts, n - 1, id);
    RemovalAnswersNobody(cfg, acts, k, id);
    hide Run, Writes, Removes;
    if k < n - 1 {
      RemovedIsMissing(cfg, acts, k, n - 1, id);
    }
  }

  lemma {:induction false} RemovalAnswersNobody(cfg: Config, acts: seq<Action>, k: nat, id: UserId)
    requires k < |acts| && Removes(cfg, acts, k, id)
    ensures forall row: User :: !Writes(cfg, acts, k, row)
  {
  }

  // ---- Where the carried row comes from ----

  lemma {:induction false} AwaitsIssueStep(cfg: Config, s: Sys, a: Action, flow: nat)
    requires var s' := Step(cfg, s, a).sys; flow in s'.flows && s'.flows[flow].stage.AwaitIssue?
    ensures var f := Step(cfg, s, a).sys.flows[flow];
      || (flow in s.flows && s.flows[flow] == f)
      || (&& a.Grant? && a.flow == flow && flow in s.flows && s.flows[flow].stage.AwaitGrant?
          && (s.flows[flow].stage.user == f.stage.user
              || (&& Ran(cfg, s, a).Some?
                  && Exec(s.db, Ran(cfg, s, a).value, s.now).reply == UserRow(f.stage.user))))
  {
    hide Exec, Admit, BrowserBegin, RpcBegin, BrowserStart, ToLower;
  }

  /** The row a callback issues for is one that its own exchange or grant answered with. */
  lemma {:induction false} CarriedRow(cfg: Config, acts: seq<Action>, n: nat, flow: nat) returns (i: nat)
    requires n <= |acts| && flow in Run(cfg, acts[..n]).flows
    requires Run(cfg, acts[..n]).flows[flow].stage.AwaitIssue?
    ensures i < n && Writes(cfg, acts, i, Run(cfg, acts[..n]).flows[flow].stage.user)
    ensures (acts[i].Exchange? || acts[i].Grant?) && acts[i].flow == flow
  {
    if n > 0 {
      var s := Run(cfg, acts[..n - 1]);
      var f := Run(cfg, acts[..n]).flows[flow];
      RunStep(cfg, acts, n - 1);
      AwaitsIssueStep(cfg, s, acts[n - 1], flow);
      hide Step, Exec, Ran, Run;
      if flow in s.flows && s.flows[flow] == f {
        i := CarriedRow(cfg, acts, n - 1, flow);
      } else if s.flows[flow].stage.user == f.stage.user {
        i := AdmissionOf(cfg, acts, n - 1, flow);
      } else {
        i := n - 1;
      }
    }
  }

  // ---- Main result ----

  /** Such a row no longer backs the claims made from `user`. */
  ghost predicate Overtakes(row: User, user: User) {
    row.id == user.id && (!row.active || ClaimsOf(row) != ClaimsOf(user))
  }

  /** Action k deleted the account and none before n has answered with it since, or k is the
      last before n to answer with it and left it disabled or with other claims. */
  ghost predicate LeftOvertaken(cfg: Config, acts: seq<Action>, k: nat, n: nat, user: User)
    requires k < n <= |acts|
  {
    || LastRemoval(cfg, acts, k, n, user.id)
    || exists row: User :: LastWrite(cfg, acts, k, n, row) && Overtakes(row, user)
  }

  /** The claims are those of an account that is there and active. */
  ghost predicate Current(users: map<UserId, User>, user: User) {
    user.id in users && users[user.id].active && ClaimsOf(users[user.id]) == ClaimsOf(user)
  }

  /** When a JWT is overtaken before it is issued. The one a callback issues after n actions
      carries the claims of the row its action i answered with. At that moment they are not
      those of an active account exactly when the last action since i to touch the account,
      i itself included, deleted it or left it disabled or with another e-mail, id or
      standing as an administrator. */
  lemma {:induction false} IssuedClaimsExactly(cfg: Config, acts: seq<Action>, n: nat, flow: nat, unused: string)
    returns (i: nat)
    requires n <= |acts| && flow in Run(cfg, acts[..n]).flows
    requires Run(cfg, acts[..n]).flows[flow].stage.AwaitIssue? && Run(cfg, acts[..n]).flows[flow].kind.Rpc?
    ensures var s := Run(cfg, acts[..n]);
      var user := s.flows[flow].stage.user;
      && Step(cfg, s, Issue(flow, unused)).answer == Some(Token(ClaimsOf(user)))
      && i < n && (acts[i].Exchange? || acts[i].Grant?) && acts[i].flow == flow && Writes(cfg, acts, i, user)
      && (!Current(s.db.Users(), user) <==>
            exists k: nat :: i <= k < n && LeftOvertaken(cfg, acts, k, n, user))
  {
    var s := Run(cfg, acts[..n]);
    var user := s.flows[flow].stage.user;
    i := CarriedRow(cfg, acts, n, flow);
    OvertakenExactly(cfg, acts, i, n, user);
    hide Run, Writes, LeftOvertaken, Current;
  }

  lemma {:induction false} OvertakenExactly(cfg: Config, acts: seq<Action>, i: nat, n: nat, user: User)
    requires i < n <= |acts| && Writes(cfg, acts, i, user)
    ensures !Current(Run(cfg, acts[..n]).db.Users(), user) <==>
      exists k: nat :: i <= k < n && LeftOvertaken(cfg, acts, k, n, user)
  {
    hide Run, Step, Exec, Writes, Removes, LastWrite, LastRemoval, ClaimsOf;
    if user.id !in Run(cfg, acts[..n]).db.Users() {
      var k := MissingWasRemoved(cfg, acts, i, n, user);
      assert LeftOvertaken(cfg, acts, k, n, user);
    } else {
      var last := LastAnswer(cfg, acts, i, n, user);
      var row := Run(cfg, acts[..n]).db.Users()[user.id];
      assert Overtakes(row, user) ==> LeftOvertaken(cfg, acts, last, n, user);
      forall k: nat | i <= k < n && LeftOvertaken(cfg, acts, k, n, user)
        ensures Overtakes(row, user)
      {
        OnlyLastLeaves(cfg, acts, k, last, n, user);
      }
    }
  }

  /** The last statement about an account that is there comes no earlier than any other. */
  lemma {:induction false} LastAnswer(cfg: Config, acts: seq<Action>, i: nat, n: nat, user: User) returns (last: nat)
    requires i < n <= |acts| && Writes(cfg, acts, i, user) && user.id in Run(cfg, acts[..n]).db.Users()
    ensures i <= last < n && LastWrite(cfg, acts, last, n, Run(cfg, acts[..n]).db.Users()[user.id])
    ensures Run(cfg, acts[..n]).db.Users()[user.id].id == user.id
  {
    hide Run, Step, Exec, Writes;
    last := RowIsLastWritten(cfg, acts, n, user.id);
    assert i <= last;
  }

  lemma {:induction false} OnlyLastLeaves(cfg: Config, acts: seq<Action>, k: nat, last: nat, n: nat, user: User)
    requires k < n <= |acts| && last < n && user.id in Run(cfg, acts[..n]).db.Users()
    requires var row := Run(cfg, acts[..n]).db.Users()[user.id];
      row.id == user.id && LastWrite(cfg, acts, last, n, row)
    requires LeftOvertaken(cfg, acts, k, n, user)
    ensures Overtakes(Run(cfg, acts[..n]).db.Users()[user.id], user)
  {
    hide Run, Step, Exec, Writes, Removes, ClaimsOf;
    if LastRemoval(cfg, acts, k, n, user.id) {
      RemovedIsMissing(cfg, acts, k, n, user.id);
    } else {
      var row :| LastWrite(cfg, acts, k, n, row) && Overtakes(row, user);
      assert k == last;
      OneAnswer(cfg, acts, last, Run(cfg, acts[..n]).db.Users()[user.id], row);
    }
  }

  /** The failing interleaving: an administrator disables and demotes an account between its
      grant and its JWT, which still says administrator. */
  lemma {:induction false} TokenAfterDemotion(cfg: Config, s: Sys, flow: nat, patch: Patch, unused: string)
    requires Consistent(s.db) && flow in s.flows && s.flows[flow].stage.AwaitIssue? && s.flows[flow].kind.Rpc?
    requires var u := s.flows[flow].stage.user; u.id in s.db.Users() && u.Holds(ADMIN_ROLE)
    requires !patch.active && (patch.roles.Some? ==> ADMIN_ROLE !in patch.roles.value)
    requires forall other :: other in s.db.Users() ==> s.db.Users()[other].email != patch.email
    ensures var user := s.flows[flow].stage.user;
      var demoted := Step(cfg, s, Statement(UpdateUser(user.id, patch))).sys;
      var issued := Step(cfg, demoted, Issue(flow, unused));
      && issued.answer == Some(Token(ClaimsOf(user))) && ClaimsOf(user).isAdmin
      && var rows := issued.sys.db.Users();
         user.id in rows && !rows[user.id].active && !rows[user.id].Holds(ADMIN_ROLE)
  {
    UpdateRule(s.db.accounts, s.flows[flow].stage.user.id, patch);
    hide Consistent;
  }

  lemma {:induction false} GrantReached(
      cfg: Config, provider: string, fetched: Fetched, newId: UserId, state: string, code: string)
    requires provider in cfg.providers && fetched.email != "" && ToLower(fetched.email) in cfg.admins
    requires cfg.stateTtl >= 0
    ensures var s := Run(cfg, UpToExchange(provider, fetched, newId, state, code) + [Grant(0)]);
      && 0 in s.flows && s.flows[0].stage.AwaitIssue? && s.flows[0].kind.Rpc?
      && s.flows[0].stage.user.Holds(ADMIN_ROLE) && s.flows[0].stage.user.id == newId
      && s.db.Users().Keys == {newId} && s.db.Users()[newId].email == fetched.email
  {
    var before := UpToExchange(provider, fetched, newId, state, code);
    var s := Run(cfg, before);
    ExchangeReached(cfg, provider, fetched, newId, state, code);
    RunAppend(cfg, before, Grant(0));
    BootstrapWrites(cfg, s.db, s.flows[0].stage.user, s.now);
    hide Run, ToLower, Bootstrap;
  }

  /** A run reaches it. */
  lemma {:induction false} TokenAfterDemotionReached(
      cfg: Config, provider: string, fetched: Fetched, newId: UserId, state: string, code: string, patch: Patch)
    requires provider in cfg.providers && fetched.email != "" && ToLower(fetched.email) in cfg.admins
    requires cfg.stateTtl >= 0 && patch.email != fetched.email
    requires !patch.active && (patch.roles.Some? ==> ADMIN_ROLE !in patch.roles.value)
    ensures var acts := UpToExchange(provider, fetched, newId, state, code) + [Grant(0)];
      var demoted := Run(cfg, acts + [Statement(UpdateUser(newId, patch))]);
      var issued := Step(cfg, demoted, Issue(0, ""));
      && issued.answer.Some? && issued.answer.value.Token? && issued.answer.value.claims.isAdmin
      && var rows := issued.sys.db.Users();
         newId in rows && !rows[newId].active && !rows[newId].Holds(ADMIN_ROLE)
  {
    var granted := UpToExchange(provider, fetched, newId, state, code) + [Grant(0)];
    GrantReached(cfg, provider, fetched, newId, state, code);
    RunAppend(cfg, granted, Statement(UpdateUser(newId, patch)));
    DatabaseIsStatementRun(cfg, granted);
    TokenAfterDemotion(cfg, Run(cfg, granted), 0, patch, "");
    hide Run, Step, Consistent, ToLower;
  }
}
