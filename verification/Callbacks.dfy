/** What each step of a login answers, in every interleaving: told from the actions of the
    run, the configuration and the log of statements. */
module Callbacks {
  import opened Values
  import opened Database
  import opened StateStores
  import opened Redirects
  import opened AuthFlow
  import opened Dance
  import opened Grants
  import opened Replay

  // ---- Starts ----

  /** A start with a fresh token goes to the provider iff that is configured and, in the
      browser, the redirect asked for (or "/") is allowed; then the state is stored for it,
      good for the lifetime. */
  lemma {:induction false} StartExactly(cfg: Config, s: Sys, a: Action)
    requires a.Start? && a.token !in s.started
    ensures var m := Step(cfg, s, a);
      var uri := if a.kind.Rpc? then "" else if |a.redirectURI| == 0 then "/" else a.redirectURI;
      var ok := a.provider in cfg.providers && (a.kind.Rpc? || Allowed(cfg.allow, uri));
      && m.answer == Some(
           if a.provider !in cfg.providers then UnknownProvider
           else if !ok then RedirectNotAllowed else ToProvider(a.token))
      && m.sys.states == if ok then s.states[a.token := StateEntry(a.provider, uri, s.now + cfg.stateTtl)] else s.states
  {
    hide Allowed;
  }

  // ---- Which states are live ----

  /** Action j is a callback that looks this state up. */
  ghost predicate Presents(cfg: Config, acts: seq<Action>, j: nat, state: string)
    requires j < |acts|
  {
    && acts[j].Begin? && acts[j].state == state && acts[j].flow !in Run(cfg, acts[..j]).flows
    && (acts[j].kind.Browser? ==> |acts[j].providerError| == 0)
  }

  /** Action i issued the state, nothing before n presented it since, and at t its lifetime
      is not over. */
  ghost predicate LiveFrom(cfg: Config, acts: seq<Action>, i: nat, n: nat, state: string, t: Time)
    requires i < n <= |acts|
  {
    && Issued(cfg, acts, i, state) && t <= Run(cfg, acts[..i]).now + cfg.stateTtl
    && forall j :: i < j < n ==> !Presents(cfg, acts, j, state)
  }

  ghost predicate Live(cfg: Config, acts: seq<Action>, n: nat, state: string, t: Time)
    requires n <= |acts|
  {
    exists i: nat :: i < n && LiveFrom(cfg, acts, i, n, state, t)
  }

  /** Stored, and good at t. */
  predicate LiveAt(m: States, state: string, t: Time) {
    state in m && t <= m[state].expiresAt
  }

  /** One action: what stores a state and what takes it. */
  lemma {:induction false} LiveStep(cfg: Config, s: Sys, a: Action, state: string, t: Time)
    requires TokensTracked(s)
    ensures var m := Step(cfg, s, a);
      var issues := a.Start? && a.token == state && m.answer == Some(ToProvider(state));
      var presents := && a.Begin? && a.state == state && a.flow !in s.flows
                      && (a.kind.Browser? ==> |a.providerError| == 0);
      && s.now <= m.sys.now
      && (issues ==> state !in s.states)
      && (m.sys.now <= t ==>
           (LiveAt(m.sys.states, state, t) <==>
             (issues && t <= s.now + cfg.stateTtl) || (LiveAt(s.states, state, t) && !presents)))
  {
    StepTouches(cfg, s, a);
    hide Admit, Bootstrap, Exec, Allowed, Verdict;
  }

  /** A state is live exactly while nothing has looked it up since its issue and its lifetime
      is not over, whatever sweeps come in between. */
  lemma {:induction false} LiveExactly(cfg: Config, acts: seq<Action>, n: nat, state: string, t: Time)
    requires n <= |acts| && Run(cfg, acts[..n]).now <= t
    ensures LiveAt(Run(cfg, acts[..n]).states, state, t) <==> Live(cfg, acts, n, state, t)
  {
    hide Step, Issued, Presents, LiveAt;
    if n == 0 {
      NothingLive(cfg, acts, state, t);
    } else {
      var s := Run(cfg, acts[..n - 1]);
      RunStep(cfg, acts, n - 1);
      assert TokensTracked(s) by {
        RunsKeepInv(cfg, acts[..n - 1]);
      }
      LiveStep(cfg, s, acts[n - 1], state, t);
      IssuedAt(cfg, acts, n - 1, state);
      LiveExactly(cfg, acts, n - 1, state, t);
      hide Run, TokensTracked;
      LiveUpTo(cfg, acts, n, state, t);
    }
  }

  lemma {:induction false} NothingLive(cfg: Config, acts: seq<Action>, state: string, t: Time)
    ensures !LiveAt(Run(cfg, acts[..0]).states, state, t)
  {
  }

  /** What LiveStep says of the last action, in the words of the run. */
  lemma {:induction false} IssuedAt(cfg: Config, acts: seq<Action>, k: nat, state: string)
    requires k < |acts|
    ensures var s := Run(cfg, acts[..k]);
      var m := Step(cfg, s, acts[k]);
      && (Issued(cfg, acts, k, state) <==>
            acts[k].Start? && acts[k].token == state && m.answer == Some(ToProvider(state)))
      && (Presents(cfg, acts, k, state) <==>
            && acts[k].Begin? && acts[k].state == state && acts[k].flow !in s.flows
            && (acts[k].kind.Browser? ==> |acts[k].providerError| == 0))
  {
    hide Step, Run;
  }

  /** Liveness from some issue, one action on. */
  lemma {:induction false} LiveUpTo(cfg: Config, acts: seq<Action>, n: nat, state: string, t: Time)
    requires 0 < n <= |acts|
    ensures Live(cfg, acts, n, state, t) <==>
      || (Issued(cfg, acts, n - 1, state) && t <= Run(cfg, acts[..n - 1]).now + cfg.stateTtl)
      || (Live(cfg, acts, n - 1, state, t) && !Presents(cfg, acts, n - 1, state))
  {
    hide Run, Issued, Presents;
    if Issued(cfg, acts, n - 1, state) && t <= Run(cfg, acts[..n - 1]).now + cfg.stateTtl {
      assert LiveFrom(cfg, acts, n - 1, n, state, t);
    }
    if i: nat :| i < n && LiveFrom(cfg, acts, i, n, state, t) {
      assert i < n - 1 ==> LiveFrom(cfg, acts, i, n - 1, state, t);
    }
    if Live(cfg, acts, n - 1, state, t) {
      var m := n - 1;
      var i: nat :| i < m && LiveFrom(cfg, acts, i, m, state, t);
      assert !Presents(cfg, acts, n - 1, state) ==> LiveFrom(cfg, acts, i, n, state, t);
    }
  }

  // ---- Callbacks ----

  /** Action i issued the state for this provider, no callback has looked it up since, and
      its lifetime is not over. */
  ghost predicate FirstPresented(cfg: Config, acts: seq<Action>, i: nat, state: string, provider: string)
    requires i < |acts|
  {
    LiveFrom(cfg, acts, i, |acts|, state, Run(cfg, acts).now) && acts[i].provider == provider
  }

  /** Where a start asks to be sent back to: "/" when it names nothing, or is an RPC. */
  function AskedFor(a: Action): string
    requires a.Start?
  {
    if a.kind.Rpc? || |a.redirectURI| == 0 then "/" else a.redirectURI
  }

  /** A stored entry has the provider and the redirect of the start that issued its state. */
  lemma {:induction false} EntryOfIssue(cfg: Config, acts: seq<Action>, i: nat, state: string)
    requires i < |acts| && Issued(cfg, acts, i, state) && state in Run(cfg, acts).states
    ensures var e := Run(cfg, acts).states[state];
      && e.provider == acts[i].provider
      && OrHome(e.redirectURI) == AskedFor(acts[i])
      && (e.redirectURI == "" || Allowed(cfg.allow, e.redirectURI))
  {
    RunsKeepInv(cfg, acts);
    assert acts[..|acts|] == acts;
    var start := StartedByAction(cfg, acts, |acts|, state);
    if i < start {
      IssuedOnce(cfg, acts, i, start, state);
    } else if start < i {
      IssuedOnce(cfg, acts, start, i, state);
    }
    hide Run, Step, Issued, Allowed;
  }

  /** A presentation is accepted exactly when it is the first of its state since that was
      issued, by the issuing provider, within the lifetime. */
  lemma {:induction false} AcceptedExactly(cfg: Config, acts: seq<Action>, state: string, provider: string)
    ensures var s := Run(cfg, acts);
      && (Verdict(s.states, state, provider, s.now).Some? <==>
            exists i: nat :: i < |acts| && FirstPresented(cfg, acts, i, state, provider))
      && (forall i: nat :: i < |acts| && FirstPresented(cfg, acts, i, state, provider) ==>
            && state in s.states && Verdict(s.states, state, provider, s.now) == Some(s.states[state].redirectURI)
            && Issued(cfg, acts, i, state))
  {
    var s := Run(cfg, acts);
    assert acts[..|acts|] == acts;
    LiveExactly(cfg, acts, |acts|, state, s.now);
    hide Run, Issued, Presents;
    if i: nat :| i < |acts| && LiveFrom(cfg, acts, i, |acts|, state, s.now) {
      EntryOfIssue(cfg, acts, i, state);
      assert FirstPresented(cfg, acts, i, state, provider) <==> acts[i].provider == provider;
      forall j: nat | j < |acts| && LiveFrom(cfg, acts, j, |acts|, state, s.now)
        ensures acts[j].provider == s.states[state].provider
      {
        EntryOfIssue(cfg, acts, j, state);
      }
    }
  }

  /** Such a presentation whose start asked for this redirect. */
  ghost predicate ComesFor(cfg: Config, acts: seq<Action>, i: nat, a: Action, uri: string)
    requires i < |acts| && a.Begin?
  {
    FirstPresented(cfg, acts, i, a.state, a.provider) && acts[i].Start? && AskedFor(acts[i]) == uri
  }

  /** What a browser callback does with its state, and which answer it gets, under an
      allowlist that may have changed since the start: the provider's error leaves the state
      alone; any other callback takes it, and goes on iff the state was good, the redirect
      its start asked for is allowed now, and there is a code. It then carries that redirect. */
  lemma {:induction false} BrowserBeginsExactly(cfg: Config, acts: seq<Action>, a: Action, allow: Allowlist)
    requires a.Begin? && a.kind.Browser? && a.flow !in Run(cfg, acts).flows
    ensures var s := Run(cfg, acts);
      var m := Step(cfg.(allow := allow), s, a);
      && m.sys.states == (if |a.providerError| > 0 then s.states else s.states - {a.state})
      && (m.answer == Some(ProviderRefused) <==> |a.providerError| > 0)
      && (m.answer == Some(BadState) <==>
            |a.providerError| == 0 && forall i: nat, uri :: i < |acts| ==> !ComesFor(cfg, acts, i, a, uri))
      && (forall i: nat, uri :: i < |acts| && ComesFor(cfg, acts, i, a, uri) && |a.providerError| == 0 ==>
        && m.answer == (if !Allowed(allow, uri) then Some(RedirectNotAllowed)
                        else if |a.code| == 0 then Some(MissingCode) else None)
        && (a.flow in m.sys.flows <==> Allowed(allow, uri) && |a.code| > 0)
        && (a.flow in m.sys.flows ==> m.sys.flows[a.flow] == Flow(Browser, a.state, a.provider, uri, AwaitExchange)))
      && (a.flow in m.sys.flows ==>
            m.answer == None && exists i: nat, uri :: i < |acts| && ComesFor(cfg, acts, i, a, uri))
  {
    AcceptedExactly(cfg, acts, a.state, a.provider);
    hide Run, Verdict, FirstPresented, Issued, Allowed;
    forall i: nat | i < |acts| && FirstPresented(cfg, acts, i, a.state, a.provider)
      ensures acts[i].Start? && OrHome(Run(cfg, acts).states[a.state].redirectURI) == AskedFor(acts[i])
      ensures ComesFor(cfg, acts, i, a, AskedFor(acts[i]))
    {
      IssueIsStart(cfg, acts, i, a.state);
      EntryOfIssue(cfg, acts, i, a.state);
    }
  }

  lemma {:induction false} IssueIsStart(cfg: Config, acts: seq<Action>, i: nat, state: string)
    requires i < |acts| && Issued(cfg, acts, i, state)
    ensures acts[i].Start?
  {
  }

  /** The RPC callback always takes the state, and goes on iff it was good. */
  lemma {:induction false} RpcBeginsExactly(cfg: Config, acts: seq<Action>, a: Action)
    requires a.Begin? && a.kind.Rpc? && a.flow !in Run(cfg, acts).flows
    ensures var s := Run(cfg, acts);
      var m := Step(cfg, s, a);
      var good := exists i: nat :: i < |acts| && FirstPresented(cfg, acts, i, a.state, a.provider);
      && m.answer == (if good then None else Some(BadState))
      && m.sys.states == s.states - {a.state}
      && (a.flow in m.sys.flows <==> good)
      && (good ==> m.sys.flows[a.flow] == Flow(Rpc, a.state, a.provider, "", AwaitExchange))
  {
    AcceptedExactly(cfg, acts, a.state, a.provider);
    hide Run, Verdict, FirstPresented;
  }

  // ---- Issue ----

  /** The last step of a login. The RPC flow always gets the JWT of the row it carries. The
      browser is signed in iff the account is still there by the log and the cookie token
      drawn is not stored under it, whatever other sessions the account has. */
  lemma {:induction false} IssueExactly(cfg: Config, acts: seq<Action>, flow: nat, sessionToken: string)
    requires flow in Run(cfg, acts).flows && Run(cfg, acts).flows[flow].stage.AwaitIssue?
    ensures var s := Run(cfg, acts);
      var f, tr := s.flows[flow], Statements(cfg, acts);
      var user := f.stage.user;
      Step(cfg, s, Action.Issue(flow, sessionToken)).answer == Some(
        if f.kind.Rpc?
        then Token(Claims(user.appId, user.email, user.roles.Some? && "admin" in user.roles.value))
        else if KnownByLog(tr, |tr|, user.id) && !StoredByLog(tr, |tr|, sessionToken) then SignedIn(f.redirectURI)
        else SessionFailed)
  {
    var s := Run(cfg, acts);
    var tr := Statements(cfg, acts);
    assert tr[..|tr|] == tr;
    DatabaseIsStatementRun(cfg, acts);
    PresenceReplay(tr, |tr|, s.flows[flow].stage.user.id);
    TokenTakenReplay(tr, |tr|, sessionToken);
    OpenSessionExactly(s.db, sessionToken, s.flows[flow].stage.user.id, cfg.sessionTtl, s.now);
    hide Run, Exec, Statements, KnownByLog, StoredByLog, Consistent;
  }

  // ---- A browser gets in ----

  /** The whole dance of a first login, from the empty system: the browser ends up signed in
      and where its start asked. */
  lemma {:induction false} BrowserSignInReached(
      cfg: Config, provider: string, redirectURI: string, fetched: Fetched, newId: UserId,
      state: string, code: string, sessionToken: string)
    requires provider in cfg.providers && fetched.email != "" && code != "" && cfg.stateTtl >= 0
    requires redirectURI == "" || Allowed(cfg.allow, redirectURI)
    ensures var start := Start(Browser, provider, redirectURI, state);
      var begin := Begin(0, Browser, provider, "", state, code);
      var acts := [start] + [begin] + [Exchange(0, Some(fetched), newId)] + [Grant(0)];
      Step(cfg, Run(cfg, acts), Action.Issue(0, sessionToken)).answer ==
        Some(SignedIn(if redirectURI == "" then "/" else redirectURI))
  {
    var start := Start(Browser, provider, redirectURI, state);
    var begin := Begin(0, Browser, provider, "", state, code);
    hide Run, Step, Allowed;
    BegunInBrowser(cfg, provider, redirectURI, state, code);
    var begun := [start] + [begin];
    RunAppend(cfg, begun, Exchange(0, Some(fetched), newId));
    RunAppend(cfg, begun + [Exchange(0, Some(fetched), newId)], Grant(0));
    SignedInAfter(cfg, Run(cfg, begun), fetched, newId, sessionToken);
  }

  lemma {:induction false} BegunInBrowser(
      cfg: Config, provider: string, redirectURI: string, state: string, code: string)
    requires provider in cfg.providers && code != "" && cfg.stateTtl >= 0
    requires redirectURI == "" || Allowed(cfg.allow, redirectURI)
    ensures var s := Run(cfg, [Start(Browser, provider, redirectURI, state)]
                              + [Begin(0, Browser, provider, "", state, code)]);
      && s.db == EMPTY
      && s.flows == map[0 := Flow(Browser, state, provider,
                                  if redirectURI == "" then "/" else redirectURI, AwaitExchange)]
  {
    var start := Start(Browser, provider, redirectURI, state);
    RunAppend(cfg, [], start);
    RunAppend(cfg, [start], Begin(0, Browser, provider, "", state, code));
    assert [] + [start] == [start];
    assert Run(cfg, []) == INITIAL;
    HomeAllowed(cfg.allow);
    hide Run, Allowed;
  }

  lemma {:induction false} NewcomerGranted(cfg: Config, s: Sys, fetched: Fetched, newId: UserId)
    requires s.db == EMPTY && 0 in s.flows && s.flows[0].stage.AwaitExchange?
    requires s.flows[0].provider in cfg.providers && fetched.email != ""
    ensures var s' := GrantStep(cfg, ExchangeStep(cfg, s, 0, Some(fetched), newId).sys, 0).sys;
      && 0 in s'.flows && s'.flows[0].stage.AwaitIssue? && s'.flows[0].kind == s.flows[0].kind
      && s'.flows[0].redirectURI == s.flows[0].redirectURI
      && s'.flows[0].stage.user.id in s'.db.Users() && s'.db.sessions == map[]
  {
    var a := Admit(cfg, s.db, s.flows[0].provider, Some(fetched), newId, s.now);
    NewcomerLogin(cfg, s.db, s.flows[0].provider, fetched, newId, s.now);
    var exchanged := ExchangeStep(cfg, s, 0, Some(fetched), newId).sys;
    assert exchanged.db.sessions == map[];
    BootstrapWrites(cfg, exchanged.db, a.outcome.value, s.now);
    hide Admit, Bootstrap, ToLower;
  }

  lemma {:induction false} SignedInAfter(
      cfg: Config, s: Sys, fetched: Fetched, newId: UserId, sessionToken: string)
    requires s.db == EMPTY && 0 in s.flows && s.flows[0].stage.AwaitExchange? && s.flows[0].kind.Browser?
    requires s.flows[0].provider in cfg.providers && fetched.email != ""
    ensures var granted := Step(cfg, Step(cfg, s, Exchange(0, Some(fetched), newId)).sys, Grant(0)).sys;
      Step(cfg, granted, Action.Issue(0, sessionToken)).answer == Some(SignedIn(s.flows[0].redirectURI))
  {
    NewcomerGranted(cfg, s, fetched, newId);
    hide ExchangeStep, GrantStep;
  }
}
