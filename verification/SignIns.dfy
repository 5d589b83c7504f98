/** What a sign-in is good for afterwards: its cookie, at any later moment of the run. */
module SignIns {
  import opened Values
  import opened Database
  import opened AuthFlow
  import opened Dance
  import opened Replay
  import H = History

  /** The statements of a shorter run come first among those of a longer one. */
  lemma {:induction false} StatementsGrow(cfg: Config, acts: seq<Action>, k: nat, n: nat)
    requires k <= n <= |acts|
    ensures Statements(cfg, acts[..k]) <= Statements(cfg, acts[..n])
    decreases n - k
  {
    hide Run, Ran;
    if k < n {
      StatementsGrow(cfg, acts, k, n - 1);
      assert acts[..n][..n - 1] == acts[..n - 1];
    }
  }

  /** An answered sign-in is the last statement of its run: it opened the session. */
  lemma {:induction false} SignInOpens(cfg: Config, acts: seq<Action>, k: nat, uri: string)
    requires k < |acts| && acts[k].Issue?
    requires Step(cfg, Run(cfg, acts[..k]), acts[k]).answer == Some(SignedIn(uri))
    ensures var s := Run(cfg, acts[..k]);
      var tr, p := Statements(cfg, acts[..k + 1]), |Statements(cfg, acts[..k])|;
      && acts[k].flow in s.flows && s.flows[acts[k].flow].stage.AwaitIssue?
      && |tr| == p + 1 && tr[..p] == Statements(cfg, acts[..k])
      && tr[p].at == s.now
      && tr[p].cmd == CreateSession(acts[k].sessionToken, s.flows[acts[k].flow].stage.user.id, cfg.sessionTtl)
      && IssuesSession(tr, p, acts[k].sessionToken)
  {
    var s := Run(cfg, acts[..k]);
    var before, tr := Statements(cfg, acts[..k]), Statements(cfg, acts[..k + 1]);
    assert acts[..k + 1][..k] == acts[..k];
    var cmd := CreateSession(acts[k].sessionToken, s.flows[acts[k].flow].stage.user.id, cfg.sessionTtl);
    hide Run, Exec;
    assert tr == before + [H.Step(s.now, cmd)];
    assert tr[..|before|] == before;
    DatabaseIsStatementRun(cfg, acts[..k]);
  }

  /** A token whose issue succeeds has no standing session yet. */
  lemma {:induction false} NoneStandsBefore(tr: H.Trace, p: nat, n: nat, i: nat, token: string)
    requires i < p < n <= |tr| && IssuesSession(tr, p, token)
    ensures !SessionStands(tr, n, i, token)
  {
    if SessionStands(tr, n, i, token) {
      StandingSessionStored(tr, p, i, token);
    }
  }

  lemma {:induction false} IssueKept(tr: H.Trace, longer: H.Trace, p: nat, token: string)
    requires p < |tr| && tr <= longer && IssuesSession(tr, p, token)
    ensures longer[p] == tr[p] && IssuesSession(longer, p, token)
  {
    hide Exec, H.After;
    assert longer[..p] == tr[..p];
  }

  /** What a shorter log says of its steps, a longer one says too. */
  lemma {:induction false} SameEvents(tr: H.Trace, longer: H.Trace, token: string)
    requires tr <= longer
    ensures forall q :: 0 <= q < |tr| ==> (IssuesSession(longer, q, token) <==> IssuesSession(tr, q, token))
    ensures forall q, user :: 0 <= q < |tr| ==>
      (EndsSession(longer, q, token, user) <==> EndsSession(tr, q, token, user))
  {
    hide Exec, H.After;
    forall q | 0 <= q < |tr|
      ensures longer[..q] == tr[..q] && longer[q] == tr[q]
    {
    }
  }

  /** In a log where step p is the last issue of a token, that issue alone decides what the
      token mints when its session is read after that log and its owner after a longer one. */
  lemma {:induction false} LastIssueMints(read: H.Trace, asked: H.Trace, p: nat, token: string, now: Time)
    requires p < |read| && read <= asked && IssuesSession(read, p, token)
    requires forall q :: p < q < |read| ==> !IssuesSession(read, q, token)
    ensures var minted, users := Mint(H.After(read), H.After(asked), token, now), H.After(asked).Users();
      var owner := read[p].cmd.user;
      && (minted.Some? <==>
        && token != "" && now < read[p].at + read[p].cmd.ttl && ActiveByLog(asked, |asked|, owner)
        && forall q :: p < q < |read| ==> !EndsSession(read, q, token, owner))
      && (minted.Some? ==> owner in users && minted == Some(ClaimsOf(users[owner])))
  {
    var m, n := |read|, |asked|;
    assert asked[..m] == read && asked[..n] == asked;
    SameEvents(read, asked, token);
    MintReplay(asked, m, n, token, now);
    hide Exec, Mint, ActiveByLog, EndsSession, IssuesSession, H.After;
    forall i: nat | i < m && i != p
      ensures !Mints(asked, m, n, i, token, now)
    {
      if i < p {
        NoneStandsBefore(asked, p, m, i, token);
      }
    }
  }

  /** What a sign-in is worth. Asked at any later time, the session read at moment m of the
      run and its owner at moment n, the cookie mints a JWT exactly when it is not the empty
      string, no logout, revoke-all or deletion up to m has ended the session, the lifetime
      counted from the sign-in is not over, and the owner is active by the log up to n; the
      claims are then those of the account the callback carried, as of n. Only a second
      issue of the very same random token is left out. */
  lemma {:induction false} SignInMintsUntilEnded(
      cfg: Config, acts: seq<Action>, k: nat, m: nat, n: nat, uri: string, now: Time)
    requires k < m <= n <= |acts| && acts[k].Issue?
    requires Step(cfg, Run(cfg, acts[..k]), acts[k]).answer == Some(SignedIn(uri))
    requires var tr, p := Statements(cfg, acts[..m]), |Statements(cfg, acts[..k])|;
      forall q :: p < q < |tr| ==> !IssuesSession(tr, q, acts[k].sessionToken)
    ensures var s := Run(cfg, acts[..k]);
      var read, asked := Statements(cfg, acts[..m]), Statements(cfg, acts[..n]);
      var second, token := Run(cfg, acts[..n]).db, acts[k].sessionToken;
      var minted := Mint(Run(cfg, acts[..m]).db, second, token, now);
      acts[k].flow in s.flows && s.flows[acts[k].flow].stage.AwaitIssue? &&
      var owner := s.flows[acts[k].flow].stage.user.id;
      && (minted.Some? <==>
        && token != "" && now < s.now + cfg.sessionTtl && ActiveByLog(asked, |asked|, owner)
        && forall q :: |Statements(cfg, acts[..k])| < q < |read| ==> !EndsSession(read, q, token, owner))
      && (minted.Some? ==> owner in second.Users() && minted == Some(ClaimsOf(second.Users()[owner])))
  {
    var read, asked := Statements(cfg, acts[..m]), Statements(cfg, acts[..n]);
    SignInOpens(cfg, acts, k, uri);
    hide Step, Run, Exec, Statements, Mint, ActiveByLog, EndsSession, IssuesSession, H.After;
    StatementsGrow(cfg, acts, k + 1, m);
    StatementsGrow(cfg, acts, m, n);
    IssueKept(Statements(cfg, acts[..k + 1]), read, |Statements(cfg, acts[..k])|, acts[k].sessionToken);
    DatabaseIsStatementRun(cfg, acts[..m]);
    DatabaseIsStatementRun(cfg, acts[..n]);
    LastIssueMints(read, asked, |Statements(cfg, acts[..k])|, acts[k].sessionToken, now);
  }
}
