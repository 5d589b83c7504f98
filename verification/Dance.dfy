/** The whole service as one machine: browser and RPC logins in any number and any
    interleaving, sharing one state store and one database, beside sweeps, clock
    advances and arbitrary other statements (administration, tokens, logouts). A
    callback takes several steps, so anything may happen between them. */
module Dance {
  import opened Values
  import opened Accounts
  import opened Database
  import opened StateStores
  import opened Redirects
  import opened AuthFlow
  import H = History
  import R = StateRuns

  datatype Kind = Browser | Rpc

  /** How far a callback has got after consuming its state. */
  datatype Stage = AwaitExchange | AwaitGrant(user: User) | AwaitIssue(user: User)

  datatype Flow = Flow(kind: Kind, state: string, provider: string, redirectURI: string, stage: Stage)

  /** A session cookie (with the redirect sent along) or a JWT, and the state behind it. */
  datatype Credential = Credential(state: string, kind: Kind, provider: string, user: User, redirectURI: string)

  /** The start request that issued a state. */
  datatype Started = Started(kind: Kind, provider: string, redirectURI: string, at: Time)

  /** `started`, `consumed` and `admitted` are history: the start behind each state ever
      drawn, the states callbacks took, and the row each of these was admitted with. */
  datatype Sys = Sys(
    db: Db,
    states: States,
    now: Time,
    started: map<string, Started>,
    consumed: set<string>,
    flows: map<nat, Flow>,
    admitted: map<string, User>,
    issued: seq<Credential>)

  const INITIAL := Sys(EMPTY, map[], 0, map[], {}, map[], map[], [])

  datatype Action =
    | Start(kind: Kind, provider: string, redirectURI: string, token: string)
    | Begin(flow: nat, kind: Kind, provider: string, providerError: string, state: string, code: string)
    | Exchange(flow: nat, fetched: Option<Fetched>, newId: UserId)
    | Grant(flow: nat)
    | Issue(flow: nat, sessionToken: string)
    | Sweep
    | Advance(elapsed: nat)
    | Statement(cmd: Cmd)

  datatype Moved = Moved(sys: Sys, answer: Option<Answer>)

  function Silent(s: Sys): Moved {
    Moved(s, None)
  }

  // ---- Steps ----

  /** Random tokens are fresh: a start never draws one drawn before. */
  function StartStep(cfg: Config, s: Sys, kind: Kind, provider: string, redirectURI: string, token: string): Moved {
    if token in s.started then Silent(s)
    else
      var stored: Result<string, Answer> :=
        if kind.Browser? then BrowserStart(cfg, provider, redirectURI)
        else if provider in cfg.providers then Ok("") else Err(UnknownProvider);
      match stored
      case Err(answer) => Moved(s, Some(answer))
      case Ok(uri) =>
        Moved(s.(states := s.states[token := StateEntry(provider, uri, s.now + cfg.stateTtl)],
                 started := s.started[token :=
                   Started(kind, provider, if kind.Browser? then redirectURI else "", s.now)]),
              Some(ToProvider(token)))
  }

  function BeginStep(cfg: Config, s: Sys, a: Action): Moved
    requires a.Begin?
  {
    if a.flow in s.flows then Silent(s)
    else
      var b := if a.kind.Browser? then BrowserBegin(cfg, s.states, a.provider, a.providerError, a.state, a.code, s.now)
               else RpcBegin(s.states, a.provider, a.state, s.now);
      var s' := s.(states := b.states, consumed := s.consumed + (s.states.Keys - b.states.Keys));
      match b.outcome
      case Err(answer) => Moved(s', Some(answer))
      case Ok(uri) => Silent(s'.(flows := s.flows[a.flow := Flow(a.kind, a.state, a.provider, uri, AwaitExchange)]))
  }

  ghost function ExchangeStep(cfg: Config, s: Sys, flow: nat, fetched: Option<Fetched>, newId: UserId): Moved {
    if flow !in s.flows || !s.flows[flow].stage.AwaitExchange? then Silent(s)
    else
      var f := s.flows[flow];
      var a := Admit(cfg, s.db, f.provider, fetched, newId, s.now);
      match a.outcome
      case Err(e) => Moved(s.(db := a.db, flows := s.flows - {flow}), Some(LoginFailed(e)))
      case Ok(user) =>
        Silent(s.(db := a.db,
                  flows := s.flows[flow := f.(stage := AwaitGrant(user))],
                  admitted := s.admitted[f.state := user]))
  }

  ghost function GrantStep(cfg: Config, s: Sys, flow: nat): Moved {
    if flow !in s.flows || !s.flows[flow].stage.AwaitGrant? then Silent(s)
    else
      var f := s.flows[flow];
      var g := Bootstrap(cfg, s.db, f.stage.user, s.now);
      Silent(s.(db := g.db, flows := s.flows[flow := f.(stage := AwaitIssue(g.user))]))
  }

  ghost function IssueStep(cfg: Config, s: Sys, flow: nat, sessionToken: string): Moved {
    if flow !in s.flows || !s.flows[flow].stage.AwaitIssue? then Silent(s)
    else
      var f := s.flows[flow];
      var done := s.(flows := s.flows - {flow});
      var credential := Credential(f.state, f.kind, f.provider, f.stage.user, f.redirectURI);
      if f.kind.Rpc? then
        Moved(done.(issued := s.issued + [credential]), Some(Token(ClaimsOf(f.stage.user))))
      else
        var o := Exec(s.db, CreateSession(sessionToken, f.stage.user.id, cfg.sessionTtl), s.now);
        if o.reply.Hit() then Moved(done.(db := o.db, issued := s.issued + [credential]), Some(SignedIn(f.redirectURI)))
        else Moved(done.(db := o.db), Some(SessionFailed))
  }

  ghost function Step(cfg: Config, s: Sys, a: Action): Moved {
    match a
    case Start(kind, provider, redirectURI, token) => StartStep(cfg, s, kind, provider, redirectURI, token)
    case Begin(_, _, _, _, _, _) => BeginStep(cfg, s, a)
    case Exchange(flow, fetched, newId) => ExchangeStep(cfg, s, flow, fetched, newId)
    case Grant(flow) => GrantStep(cfg, s, flow)
    case Issue(flow, sessionToken) => IssueStep(cfg, s, flow, sessionToken)
    case Sweep => Silent(s.(states := Swept(s.states, s.now)))
    case Advance(elapsed) => Silent(s.(now := s.now + elapsed))
    case Statement(cmd) => Silent(s.(db := Exec(s.db, cmd, s.now).db))
  }

  /** The system after a run. */
  ghost function Run(cfg: Config, acts: seq<Action>): Sys {
    if acts == [] then INITIAL
    else Step(cfg, Run(cfg, acts[..|acts| - 1]), acts[|acts| - 1]).sys
  }

  // ---- The invariant ----

  /** Tokens: drawn once, then stored, consumed or swept away, never two of these. */
  ghost predicate TokensTracked(s: Sys) {
    && s.states.Keys <= s.started.Keys
    && s.consumed <= s.started.Keys
    && s.states.Keys !! s.consumed
  }

  /** A stored entry is what its start asked for, and may be redirected to. */
  ghost predicate EntriesHonest(cfg: Config, s: Sys) {
    forall t :: t in s.states && t in s.started ==>
      && s.states[t].provider == s.started[t].provider
      && s.states[t].expiresAt == s.started[t].at + cfg.stateTtl
      && OrHome(s.states[t].redirectURI) == OrHome(s.started[t].redirectURI)
      && (s.states[t].redirectURI == "" || Allowed(cfg.allow, s.states[t].redirectURI))
  }

  /** Each running callback holds a consumed state of its own. */
  ghost predicate FlowsApart(s: Sys) {
    && (forall f :: f in s.flows ==> s.flows[f].state in s.consumed && s.flows[f].state in s.started)
    && (forall f, g :: f in s.flows && g in s.flows && s.flows[f].state == s.flows[g].state ==> f == g)
    && (forall f, k :: f in s.flows && 0 <= k < |s.issued| ==> s.flows[f].state != s.issued[k].state)
    && (forall f :: f in s.flows ==> s.flows[f].provider == s.started[s.flows[f].state].provider)
    && (forall f :: f in s.flows && s.flows[f].kind.Browser? ==>
          s.flows[f].redirectURI == OrHome(s.started[s.flows[f].state].redirectURI))
  }

  ghost predicate CredentialsApart(s: Sys) {
    && (forall k :: 0 <= k < |s.issued| ==> s.issued[k].state in s.consumed && s.issued[k].state in s.started)
    && (forall j, k :: 0 <= j < k < |s.issued| ==> s.issued[j].state != s.issued[k].state)
    && (forall k :: 0 <= k < |s.issued| ==> s.issued[k].provider == s.started[s.issued[k].state].provider)
    && (forall k :: 0 <= k < |s.issued| && s.issued[k].kind.Browser? ==>
          s.issued[k].redirectURI == OrHome(s.started[s.issued[k].state].redirectURI))
  }

  ghost predicate Inv(cfg: Config, s: Sys) {
    TokensTracked(s) && EntriesHonest(cfg, s) && FlowsApart(s) && CredentialsApart(s)
  }

  /** A start draws at most its own, fresh token, for a redirect that may be followed. */
  lemma {:induction false} StartShape(cfg: Config, s: Sys, a: Action)
    requires a.Start?
    ensures var s' := StartStep(cfg, s, a.kind, a.provider, a.redirectURI, a.token).sys;
      s' == s || (a.token !in s.started && exists uri ::
        && (uri == "" || Allowed(cfg.allow, uri))
        && OrHome(uri) == OrHome(if a.kind.Browser? then a.redirectURI else "")
        && s' == Drawn(cfg, s, a, uri))
  {
    hide Allowed;
    var s' := StartStep(cfg, s, a.kind, a.provider, a.redirectURI, a.token).sys;
    assert s' == s || s' == Drawn(cfg, s, a, if a.kind.Browser? then OrHome(a.redirectURI) else "");
  }

  /** What a start action puts on record. */
  function RecordOf(a: Action, at: Time): Started
    requires a.Start?
  {
    Started(a.kind, a.provider, if a.kind.Browser? then a.redirectURI else "", at)
  }

  function Drawn(cfg: Config, s: Sys, a: Action, uri: string): Sys
    requires a.Start?
  {
    s.(states := s.states[a.token := StateEntry(a.provider, uri, s.now + cfg.stateTtl)],
       started := s.started[a.token := RecordOf(a, s.now)])
  }

  lemma {:induction false} StartKeepsInv(cfg: Config, s: Sys, a: Action)
    requires Inv(cfg, s) && a.Start?
    ensures Inv(cfg, StartStep(cfg, s, a.kind, a.provider, a.redirectURI, a.token).sys)
  {
    hide Allowed, StartStep, OrHome;
    StartShape(cfg, s, a);
    var s' := StartStep(cfg, s, a.kind, a.provider, a.redirectURI, a.token).sys;
    if s' != s {
      assert TokensTracked(s');
      assert EntriesHonest(cfg, s');
      DrawnKeepsCallbacks(s, s', a.token);
    }
  }

  /** Callbacks and credentials are about states on record, which stay as they are. */
  lemma {:induction false} DrawnKeepsCallbacks(s: Sys, s': Sys, token: string)
    requires FlowsApart(s) && CredentialsApart(s) && token !in s.started && token in s'.started
    requires s' == s.(states := s'.states, started := s.started[token := s'.started[token]])
    ensures FlowsApart(s') && CredentialsApart(s')
  {
  }

  /** Beginning a callback takes at most the presented state, and only an accepted one
      opens a flow. */
  lemma {:induction false} BeginShape(cfg: Config, s: Sys, a: Action)
    requires a.Begin?
    ensures var s' := BeginStep(cfg, s, a).sys;
      && (s'.states == s.states || s'.states == s.states - {a.state})
      && s' == s.(states := s'.states, consumed := s.consumed + (s.states.Keys - s'.states.Keys), flows := s'.flows)
      && (s'.flows != s.flows ==>
        && a.flow !in s.flows && a.state in s.states && s'.states == s.states - {a.state}
        && a.provider == s.states[a.state].provider
        && exists uri :: && s'.flows == s.flows[a.flow := Flow(a.kind, a.state, a.provider, uri, AwaitExchange)]
                         && (a.kind.Browser? ==> uri == OrHome(s.states[a.state].redirectURI)))
  {
    hide Allowed;
  }

  lemma {:induction false} BeginKeepsInv(cfg: Config, s: Sys, a: Action)
    requires Inv(cfg, s) && a.Begin?
    ensures Inv(cfg, BeginStep(cfg, s, a).sys)
  {
    var s' := BeginStep(cfg, s, a).sys;
    BeginShape(cfg, s, a);
    hide Allowed, BeginStep;
    assert s'.states.Keys <= s.states.Keys;
    assert TokensTracked(s');
    assert EntriesHonest(cfg, s');
    assert CredentialsApart(s');
    BeginKeepsFlows(cfg, s, a);
  }

  lemma {:induction false} BeginKeepsFlows(cfg: Config, s: Sys, a: Action)
    requires Inv(cfg, s) && a.Begin?
    ensures FlowsApart(BeginStep(cfg, s, a).sys)
  {
    var s' := BeginStep(cfg, s, a).sys;
    BeginShape(cfg, s, a);
    hide Allowed, BeginStep, FlowsApart, CredentialsApart;
    if s'.flows != s.flows {
      assert a.state in s'.consumed && a.state !in s.consumed && a.state in s.started;
      OpenedKeepsFlows(s, s', a.flow);
    } else {
      ConsumedKeepsFlows(s, s');
    }
  }

  /** A new callback is apart from the others if its state was not consumed before. */
  lemma {:induction false} OpenedKeepsFlows(s: Sys, s': Sys, flow: nat)
    requires FlowsApart(s) && CredentialsApart(s) && flow !in s.flows && flow in s'.flows
    requires s.consumed <= s'.consumed && s'.started == s.started && s'.issued == s.issued
    requires s'.flows == s.flows[flow := s'.flows[flow]]
    requires var f := s'.flows[flow];
      && f.state in s'.consumed && f.state !in s.consumed && f.state in s.started
      && f.provider == s.started[f.state].provider
      && (f.kind.Browser? ==> f.redirectURI == OrHome(s.started[f.state].redirectURI))
    ensures FlowsApart(s')
  {
    hide OrHome;
  }

  lemma {:induction false} ConsumedKeepsFlows(s: Sys, s': Sys)
    requires FlowsApart(s) && s.consumed <= s'.consumed
    requires s'.started == s.started && s'.issued == s.issued && s'.flows == s.flows
    ensures FlowsApart(s')
  {
  }

  lemma {:induction false} ExchangeKeepsInv(cfg: Config, s: Sys, flow: nat, fetched: Option<Fetched>, newId: UserId)
    requires Inv(cfg, s)
    ensures Inv(cfg, ExchangeStep(cfg, s, flow, fetched, newId).sys)
  {
    hide Allowed, Admit;
  }

  lemma {:induction false} GrantKeepsInv(cfg: Config, s: Sys, flow: nat)
    requires Inv(cfg, s)
    ensures Inv(cfg, GrantStep(cfg, s, flow).sys)
  {
    hide Allowed, Bootstrap;
  }

  lemma {:induction false} IssueKeepsInv(cfg: Config, s: Sys, flow: nat, sessionToken: string)
    requires Inv(cfg, s)
    ensures Inv(cfg, IssueStep(cfg, s, flow, sessionToken).sys)
  {
    IssueKeepsFlows(cfg, s, flow, sessionToken);
    IssueKeepsCredentials(cfg, s, flow, sessionToken);
    hide Allowed, Exec, FlowsApart, CredentialsApart;
  }

  lemma {:induction false} IssueKeepsFlows(cfg: Config, s: Sys, flow: nat, sessionToken: string)
    requires FlowsApart(s)
    ensures FlowsApart(IssueStep(cfg, s, flow, sessionToken).sys)
  {
    hide Exec;
  }

  lemma {:induction false} IssueKeepsCredentials(cfg: Config, s: Sys, flow: nat, sessionToken: string)
    requires FlowsApart(s) && CredentialsApart(s)
    ensures CredentialsApart(IssueStep(cfg, s, flow, sessionToken).sys)
  {
    hide Exec;
  }

  lemma {:induction false} StepKeepsInv(cfg: Config, s: Sys, a: Action)
    requires Inv(cfg, s)
    ensures Inv(cfg, Step(cfg, s, a).sys)
  {
    hide StartStep, BeginStep, ExchangeStep, GrantStep, IssueStep, Exec, Allowed, FlowsApart, CredentialsApart;
    match a
    case Start(_, _, _, _) => StartKeepsInv(cfg, s, a);
    case Begin(_, _, _, _, _, _) => BeginKeepsInv(cfg, s, a);
    case Exchange(flow, fetched, newId) => ExchangeKeepsInv(cfg, s, flow, fetched, newId);
    case Grant(flow) => GrantKeepsInv(cfg, s, flow);
    case Issue(flow, sessionToken) => IssueKeepsInv(cfg, s, flow, sessionToken);
    case _ => OthersKeepInv(cfg, s, a);
  }

  lemma {:induction false} OthersKeepInv(cfg: Config, s: Sys, a: Action)
    requires Inv(cfg, s) && (a.Sweep? || a.Advance? || a.Statement?)
    ensures Inv(cfg, Step(cfg, s, a).sys)
  {
    hide Exec, Allowed;
  }

  lemma {:induction false} RunsKeepInv(cfg: Config, acts: seq<Action>)
    ensures Inv(cfg, Run(cfg, acts))
  {
    hide Step;
    if acts != [] {
      RunsKeepInv(cfg, acts[..|acts| - 1]);
      StepKeepsInv(cfg, Run(cfg, acts[..|acts| - 1]), acts[|acts| - 1]);
    }
  }

  // ---- Main results ----

  /** In every reachable state each stored redirect is empty or allowed, so with the
      allowlist fixed the callback's second check never refuses. */
  lemma {:induction false} RecheckNeverRefuses(cfg: Config, acts: seq<Action>, a: Action)
    requires a.Begin?
    ensures var s := Run(cfg, acts);
      && (forall t :: t in s.states ==> s.states[t].redirectURI == "" || Allowed(cfg.allow, s.states[t].redirectURI))
      && Step(cfg, s, a).answer != Some(RedirectNotAllowed)
  {
    RunsKeepInv(cfg, acts);
    HomeAllowed(cfg.allow);
    hide Allowed, Run;
  }

  /** The record only grows, by start actions that answer with their token. */
  lemma {:induction false} StepRecords(cfg: Config, s: Sys, a: Action, token: string)
    ensures var m := Step(cfg, s, a);
      && (token in s.started ==> token in m.sys.started && m.sys.started[token] == s.started[token])
      && (token in m.sys.started && token !in s.started ==>
            && a.Start? && a.token == token && m.answer == Some(ToProvider(token))
            && m.sys.started[token] == RecordOf(a, s.now))
  {
    hide Admit, Bootstrap, Exec, BrowserBegin, RpcBegin, BrowserStart;
  }

  /** Action i is the start that issued this state: it answered with it. */
  ghost predicate Issued(cfg: Config, acts: seq<Action>, i: nat, token: string)
    requires i < |acts|
  {
    && acts[i].Start? && acts[i].token == token
    && Step(cfg, Run(cfg, acts[..i]), acts[i]).answer == Some(ToProvider(token))
  }

  /** A state on record was issued by a start action of the run, with its parameters and
      at its instant. */
  lemma {:induction false} StartedByAction(cfg: Config, acts: seq<Action>, n: nat, token: string) returns (i: nat)
    requires n <= |acts| && token in Run(cfg, acts[..n]).started
    ensures i < n && Issued(cfg, acts, i, token)
    ensures Run(cfg, acts[..n]).started[token] == RecordOf(acts[i], Run(cfg, acts[..i]).now)
  {
    var last := n - 1;
    assert n > 0 ==> acts[..n][..last] == acts[..last];
    StepRecords(cfg, Run(cfg, acts[..last]), acts[last], token);
    hide Step;
    if token in Run(cfg, acts[..last]).started {
      i := StartedByAction(cfg, acts, last, token);
    } else {
      i := last;
    }
  }

  /** A state is issued once. */
  lemma {:induction false} IssuedOnce(cfg: Config, acts: seq<Action>, i: nat, j: nat, token: string)
    requires i < j < |acts| && Issued(cfg, acts, i, token)
    ensures !Issued(cfg, acts, j, token)
  {
    assert acts[..i + 1][..i] == acts[..i];
    RecordStays(cfg, acts, i + 1, j, token);
  }

  lemma {:induction false} RecordStays(cfg: Config, acts: seq<Action>, m: nat, n: nat, token: string)
    requires m <= n <= |acts| && token in Run(cfg, acts[..m]).started
    ensures token in Run(cfg, acts[..n]).started
    decreases n - m
  {
    hide Step;
    if m < n {
      RecordStays(cfg, acts, m, n - 1, token);
      assert acts[..n][..n - 1] == acts[..n - 1];
      StepRecords(cfg, Run(cfg, acts[..n - 1]), acts[n - 1], token);
    }
  }

  /** End to end: a credential answers the one start action of the run that issued its
      state, and is for that start's provider; a browser is finally sent where that start
      asked, or to "/" if it named no redirect (an RPC start never does). */
  lemma {:induction false} EndsWhereStartAsked(cfg: Config, acts: seq<Action>, k: nat)
    requires k < |Run(cfg, acts).issued|
    ensures var c := Run(cfg, acts).issued[k];
      && (exists i: nat :: i < |acts| && Issued(cfg, acts, i, c.state))
      && (forall i: nat :: i < |acts| && Issued(cfg, acts, i, c.state) ==>
        && acts[i].provider == c.provider
        && (c.kind.Browser? ==>
              c.redirectURI == if acts[i].kind.Browser? then OrHome(acts[i].redirectURI) else HOME))
  {
    hide Step, Issued;
    RunsKeepInv(cfg, acts);
    assert acts[..|acts|] == acts;
    var state := Run(cfg, acts).issued[k].state;
    var start := StartedByAction(cfg, acts, |acts|, state);
    forall i: nat | i < |acts| && Issued(cfg, acts, i, state)
      ensures i == start
    {
      if i < start {
        IssuedOnce(cfg, acts, i, start, state);
      } else if start < i {
        IssuedOnce(cfg, acts, start, i, state);
      }
    }
  }

  /** One credential per state: issued credentials map injectively to consumed states,
      so they never outnumber the states consumed, nor those the runs' starts drew. */
  lemma {:induction false} OneCredentialPerState(cfg: Config, acts: seq<Action>)
    ensures var s := Run(cfg, acts);
      && (forall j, k :: 0 <= j < k < |s.issued| ==> s.issued[j].state != s.issued[k].state)
      && (forall k :: 0 <= k < |s.issued| ==> s.issued[k].state in s.consumed)
      && |s.issued| <= |s.consumed| <= |s.started|
  {
    RunsKeepInv(cfg, acts);
    var s := Run(cfg, acts);
    hide Run;
    var used := StatesOf(s.issued);
    DistinctStatesCount(s.issued);
    assert used <= s.consumed;
    SubsetSize(used, s.consumed);
    SubsetSize(s.consumed, s.started.Keys);
  }

  ghost function StatesOf(issued: seq<Credential>): set<string> {
    set k | 0 <= k < |issued| :: issued[k].state
  }

  lemma {:induction false} DistinctStatesCount(issued: seq<Credential>)
    requires forall j, k :: 0 <= j < k < |issued| ==> issued[j].state != issued[k].state
    ensures |StatesOf(issued)| == |issued|
  {
    if issued != [] {
      var last := |issued| - 1;
      DistinctStatesCount(issued[..last]);
      assert StatesOf(issued) == StatesOf(issued[..last]) + {issued[last].state};
    }
  }

  // ---- The machine's database is a run of statements ----

  /** The statement, if any, that an action runs. */
  ghost function Ran(cfg: Config, s: Sys, a: Action): Option<Cmd> {
    match a
    case Exchange(flow, fetched, newId) =>
      if && flow in s.flows && s.flows[flow].stage.AwaitExchange? && s.flows[flow].provider in cfg.providers
         && fetched.Some? && fetched.value.email != ""
      then Some(Login(ProfileOf(s.flows[flow].provider, fetched.value), newId)) else None
    case Grant(flow) =>
      if flow in s.flows && s.flows[flow].stage.AwaitGrant? && ToLower(s.flows[flow].stage.user.email) in cfg.admins
      then Some(GrantRole(s.flows[flow].stage.user.id, ADMIN_ROLE)) else None
    case Issue(flow, sessionToken) =>
      if flow in s.flows && s.flows[flow].stage.AwaitIssue? && s.flows[flow].kind.Browser?
      then Some(CreateSession(sessionToken, s.flows[flow].stage.user.id, cfg.sessionTtl)) else None
    case Statement(cmd) => Some(cmd)
    case _ => None
  }

  lemma {:induction false} StepRuns(cfg: Config, s: Sys, a: Action)
    ensures Step(cfg, s, a).sys.db == match Ran(cfg, s, a) case Some(cmd) => Exec(s.db, cmd, s.now).db case None => s.db
  {
    hide Exec, BrowserBegin, RpcBegin, BrowserStart, ToLower;
  }

  ghost function Statements(cfg: Config, acts: seq<Action>): H.Trace {
    if acts == [] then []
    else
      var pre := acts[..|acts| - 1];
      var s := Run(cfg, pre);
      Statements(cfg, pre) + match Ran(cfg, s, acts[|acts| - 1]) case Some(cmd) => [H.Step(s.now, cmd)] case None => []
  }

  /** Whatever interleaving of logins led here, the database is the one a plain sequence
      of statements leaves: keys and references hold, and every theorem about statement
      runs (ownership, replay, touches) applies to the machine. */
  lemma {:induction false} DatabaseIsStatementRun(cfg: Config, acts: seq<Action>)
    ensures Run(cfg, acts).db == H.After(Statements(cfg, acts))
    ensures Consistent(Run(cfg, acts).db)
  {
    hide Exec, Step, Consistent;
    if acts != [] {
      var last := |acts| - 1;
      var s := Run(cfg, acts[..last]);
      DatabaseIsStatementRun(cfg, acts[..last]);
      StepRuns(cfg, s, acts[last]);
      var before, all := Statements(cfg, acts[..last]), Statements(cfg, acts);
      if all != before {
        assert all[..|all| - 1] == before;
      }
    }
    H.RunsConsistent(Statements(cfg, acts));
  }

  /** What an action does to the state store, if anything. */
  function Touched(cfg: Config, s: Sys, a: Action): Option<R.Op> {
    match a
    case Start(kind, provider, redirectURI, token) =>
      if token in s.started || provider !in cfg.providers then None
      else if kind.Rpc? then Some(R.Generate(token, provider, ""))
      else if Allowed(cfg.allow, OrHome(redirectURI)) then Some(R.Generate(token, provider, OrHome(redirectURI)))
      else None
    case Begin(flow, kind, provider, providerError, state, _) =>
      if flow in s.flows || (kind.Browser? && providerError != "") then None else Some(R.Present(state, provider))
    case Sweep => Some(R.Sweep)
    case _ => None
  }

  ghost function StoreCalls(cfg: Config, acts: seq<Action>): R.Trace {
    if acts == [] then []
    else
      var pre := acts[..|acts| - 1];
      var s := Run(cfg, pre);
      StoreCalls(cfg, pre) +
        match Touched(cfg, s, acts[|acts| - 1]) case Some(op) => [R.Step(s.now, op)] case None => []
  }

  lemma {:induction false} StartTouches(cfg: Config, s: Sys, a: Action)
    requires a.Start?
    ensures var s' := StartStep(cfg, s, a.kind, a.provider, a.redirectURI, a.token).sys;
      && s'.now == s.now
      && s'.states == match Touched(cfg, s, a)
                      case Some(op) => R.Apply(s.states, R.Step(s.now, op), cfg.stateTtl)
                      case None => s.states
  {
    hide Allowed;
  }

  lemma {:induction false} BeginTouches(cfg: Config, s: Sys, a: Action)
    requires a.Begin?
    ensures var s' := BeginStep(cfg, s, a).sys;
      && s'.now == s.now
      && s'.states == match Touched(cfg, s, a)
                      case Some(op) => R.Apply(s.states, R.Step(s.now, op), cfg.stateTtl)
                      case None => s.states
  {
    hide Allowed, Verdict;
  }

  lemma {:induction false} StepTouches(cfg: Config, s: Sys, a: Action)
    ensures var s' := Step(cfg, s, a).sys;
      && s.now <= s'.now
      && s'.states == match Touched(cfg, s, a)
                      case Some(op) => R.Apply(s.states, R.Step(s.now, op), cfg.stateTtl)
                      case None => s.states
  {
    hide Exec, Admit, Bootstrap, Allowed, StartStep, BeginStep;
    match a
    case Start(_, _, _, _) => StartTouches(cfg, s, a);
    case Begin(_, _, _, _, _, _) => BeginTouches(cfg, s, a);
    case _ =>
  }

  lemma {:induction false} CallsMonotone(cfg: Config, acts: seq<Action>)
    ensures R.Monotone(StoreCalls(cfg, acts))
    ensures forall i :: 0 <= i < |StoreCalls(cfg, acts)| ==> StoreCalls(cfg, acts)[i].at <= Run(cfg, acts).now
  {
    hide Step, Touched;
    if acts != [] {
      CallsMonotone(cfg, acts[..|acts| - 1]);
      StepTouches(cfg, Run(cfg, acts[..|acts| - 1]), acts[|acts| - 1]);
    }
  }

  /** Likewise the state store is the one its own calls leave, under a clock that never
      goes back: single use, sweeping and conservation hold inside the machine. */
  lemma {:induction false} StatesAreStoreRun(cfg: Config, acts: seq<Action>)
    ensures Run(cfg, acts).states == R.After(StoreCalls(cfg, acts), cfg.stateTtl)
    ensures R.Monotone(StoreCalls(cfg, acts))
  {
    CallsMonotone(cfg, acts);
    hide Step, Touched, R.Monotone, R.Apply;
    if acts != [] {
      var last := |acts| - 1;
      StatesAreStoreRun(cfg, acts[..last]);
      StepTouches(cfg, Run(cfg, acts[..last]), acts[last]);
      var before, all := StoreCalls(cfg, acts[..last]), StoreCalls(cfg, acts);
      if all != before {
        assert all[..|all| - 1] == before;
      }
    }
  }

  // ---- Whose credentials ----

  /** What a callback carries of its admission: the whole row up to the grant, which may
      answer with a newer row of that account. */
  predicate Carries(f: Flow, admitted: User) {
    match f.stage
    case AwaitExchange => true
    case AwaitGrant(user) => user == admitted
    case AwaitIssue(user) => user.id == admitted.id
  }

  ghost predicate AccountsTracked(s: Sys) {
    && (forall t :: t in s.admitted ==> t in s.started && s.admitted[t].active
                                        && s.admitted[t].identity.provider == s.started[t].provider)
    && (forall f :: f in s.flows && !s.flows[f].stage.AwaitExchange? ==>
          s.flows[f].state in s.admitted && Carries(s.flows[f], s.admitted[s.flows[f].state]))
    && (forall k :: 0 <= k < |s.issued| ==>
          s.issued[k].state in s.admitted && s.issued[k].user.id == s.admitted[s.issued[k].state].id)
  }

  lemma {:induction false} ExchangeTracks(cfg: Config, s: Sys, flow: nat, fetched: Option<Fetched>, newId: UserId)
    requires FlowsApart(s) && AccountsTracked(s) && Consistent(s.db)
    ensures AccountsTracked(ExchangeStep(cfg, s, flow, fetched, newId).sys)
  {
    hide Admit, Consistent, FlowsApart, AccountsTracked;
    if flow in s.flows && s.flows[flow].stage.AwaitExchange? {
      var f := s.flows[flow];
      var a := Admit(cfg, s.db, f.provider, fetched, newId, s.now);
      AdmitRow(cfg, s.db, f.provider, fetched, newId, s.now);
      if a.outcome.Ok? {
        AdmissionTracks(s, a.db, flow, a.outcome.value);
      } else {
        DroppingTracks(s, a.db, flow);
      }
    }
  }

  lemma {:induction false} DroppingTracks(s: Sys, db: Db, flow: nat)
    requires AccountsTracked(s)
    ensures AccountsTracked(s.(db := db, flows := s.flows - {flow}))
  {
  }

  lemma {:induction false} AdmissionTracks(s: Sys, db: Db, flow: nat, user: User)
    requires FlowsApart(s) && AccountsTracked(s)
    requires flow in s.flows && user.active && user.identity.provider == s.flows[flow].provider
    ensures var f := s.flows[flow];
      AccountsTracked(s.(db := db,
                         flows := s.flows[flow := f.(stage := AwaitGrant(user))],
                         admitted := s.admitted[f.state := user]))
  {
  }

  lemma {:induction false} GrantTracks(cfg: Config, s: Sys, flow: nat)
    requires AccountsTracked(s) && Consistent(s.db)
    ensures AccountsTracked(GrantStep(cfg, s, flow).sys)
  {
    if flow in s.flows && s.flows[flow].stage.AwaitGrant? {
      BootstrapWrites(cfg, s.db, s.flows[flow].stage.user, s.now);
      assert RowsNumbered(s.db.accounts);
    }
    hide Bootstrap, Consistent, ToLower;
  }

  lemma {:induction false} StartTracks(cfg: Config, s: Sys, a: Action)
    requires AccountsTracked(s) && a.Start?
    ensures AccountsTracked(StartStep(cfg, s, a.kind, a.provider, a.redirectURI, a.token).sys)
  {
    hide Allowed;
  }

  lemma {:induction false} BeginTracks(cfg: Config, s: Sys, a: Action)
    requires AccountsTracked(s) && a.Begin?
    ensures AccountsTracked(BeginStep(cfg, s, a).sys)
  {
    BeginShape(cfg, s, a);
    hide BeginStep;
  }

  lemma {:induction false} IssueTracks(cfg: Config, s: Sys, flow: nat, sessionToken: string)
    requires AccountsTracked(s)
    ensures AccountsTracked(IssueStep(cfg, s, flow, sessionToken).sys)
  {
    hide Exec;
  }

  lemma {:induction false} StepTracks(cfg: Config, s: Sys, a: Action)
    requires FlowsApart(s) && AccountsTracked(s) && Consistent(s.db)
    ensures AccountsTracked(Step(cfg, s, a).sys)
  {
    hide StartStep, BeginStep, ExchangeStep, GrantStep, IssueStep, Exec, Consistent, FlowsApart;
    match a
    case Start(_, _, _, _) => StartTracks(cfg, s, a);
    case Begin(_, _, _, _, _, _) => BeginTracks(cfg, s, a);
    case Exchange(flow, fetched, newId) => ExchangeTracks(cfg, s, flow, fetched, newId);
    case Grant(flow) => GrantTracks(cfg, s, flow);
    case Issue(flow, sessionToken) => IssueTracks(cfg, s, flow, sessionToken);
    case _ =>
  }

  lemma {:induction false} NothingTracked()
    ensures AccountsTracked(INITIAL)
  {
  }

  lemma {:induction false} RunsTrackAccounts(cfg: Config, acts: seq<Action>)
    ensures AccountsTracked(Run(cfg, acts))
  {
    hide Step, Consistent, AccountsTracked, TokensTracked, EntriesHonest, FlowsApart, CredentialsApart;
    assert AccountsTracked(INITIAL) by {
      NothingTracked();
    }
    if acts != [] {
      var pre := acts[..|acts| - 1];
      RunsTrackAccounts(cfg, pre);
      RunsKeepInv(cfg, pre);
      DatabaseIsStatementRun(cfg, pre);
      StepTracks(cfg, Run(cfg, pre), acts[|acts| - 1]);
    }
  }

  /** Every credential is for the very account its callback was admitted to, which was
      active then and belonged to an identity of the provider the state was drawn for. */
  lemma {:induction false} CredentialsForAdmittedAccounts(cfg: Config, acts: seq<Action>, k: nat)
    requires k < |Run(cfg, acts).issued|
    ensures var s := Run(cfg, acts);
      var c := s.issued[k];
      && c.state in s.admitted
      && s.admitted[c.state].id == c.user.id
      && s.admitted[c.state].active
      && s.admitted[c.state].identity.provider == c.provider
  {
    RunsTrackAccounts(cfg, acts);
    RunsKeepInv(cfg, acts);
    hide Run;
  }

  // ---- Handlers run without interruption ----

  function Said(answer: Option<Answer>): seq<Answer> {
    if answer.Some? then [answer.value] else []
  }

  /** From an accepted state on: the last three steps, with nothing in between. */
  lemma {:induction false} LastThreeSteps(
      cfg: Config, s: Sys, flow: nat, fetched: Option<Fetched>, newId: UserId, sessionToken: string)
    requires flow in s.flows && s.flows[flow].stage.AwaitExchange?
    ensures var f := s.flows[flow];
      var m2 := ExchangeStep(cfg, s, flow, fetched, newId);
      var m3 := GrantStep(cfg, m2.sys, flow);
      var m4 := IssueStep(cfg, m3.sys, flow, sessionToken);
      var rest :=
        if f.kind.Rpc? then RpcRest(cfg, s.db, s.states, f.provider, fetched, newId, s.now)
        else BrowserRest(cfg, s.db, s.states, f.provider, f.redirectURI, fetched, newId, sessionToken, s.now);
      && m4.sys.db == rest.db && m4.sys.states == rest.states && m4.sys.flows == s.flows - {flow}
      && [rest.answer] == Said(m2.answer) + Said(m3.answer) + Said(m4.answer)
  {
    hide Exec, Admit, Bootstrap;
    var m2 := ExchangeStep(cfg, s, flow, fetched, newId);
    if m2.answer.None? {
      var m3 := GrantStep(cfg, m2.sys, flow);
      assert m3.sys.flows - {flow} == s.flows - {flow};
    }
  }

  lemma {:induction false} NoFlowNoStep(
      cfg: Config, s: Sys, flow: nat, fetched: Option<Fetched>, newId: UserId, sessionToken: string)
    requires flow !in s.flows
    ensures ExchangeStep(cfg, s, flow, fetched, newId) == Silent(s)
    ensures GrantStep(cfg, s, flow) == Silent(s)
    ensures IssueStep(cfg, s, flow, sessionToken) == Silent(s)
  {
  }

  ghost function Handler(
      cfg: Config, s: Sys, a: Action, fetched: Option<Fetched>, newId: UserId, sessionToken: string): Callback
    requires a.Begin?
  {
    if a.kind.Browser? then
      BrowserCallback(cfg, s.db, s.states, a.provider, a.providerError, a.state, a.code,
                      fetched, newId, sessionToken, s.now)
    else RpcCallback(cfg, s.db, s.states, a.provider, a.state, fetched, newId, s.now)
  }

  /** The handler is its first stretch, and if that accepts the state what follows it. */
  lemma {:induction false} HandlerBegins(
      cfg: Config, s: Sys, a: Action, fetched: Option<Fetched>, newId: UserId, sessionToken: string)
    requires a.Begin? && a.flow !in s.flows
    ensures var h, m := Handler(cfg, s, a, fetched, newId, sessionToken), BeginStep(cfg, s, a);
      && m.sys.db == s.db && m.sys.now == s.now
      && if a.flow !in m.sys.flows
         then m.sys.flows == s.flows && m.answer.Some? && h == Callback(s.db, m.sys.states, m.answer.value)
         else
           var f := m.sys.flows[a.flow];
           && m.answer.None? && m.sys.flows == s.flows[a.flow := f]
           && f == Flow(a.kind, a.state, a.provider, f.redirectURI, AwaitExchange)
           && h == if a.kind.Rpc? then RpcRest(cfg, s.db, m.sys.states, a.provider, fetched, newId, s.now)
                   else BrowserRest(cfg, s.db, m.sys.states, a.provider, f.redirectURI,
                                    fetched, newId, sessionToken, s.now)
  {
    hide RpcRest, BrowserRest, Allowed, Verdict;
  }

  /** The four steps of a callback, with nothing in between, are the handler of its kind. */
  lemma {:induction false} CallbackIsFourSteps(
      cfg: Config, s: Sys, begin: Action, fetched: Option<Fetched>, newId: UserId, sessionToken: string)
    requires begin.Begin? && begin.flow !in s.flows
    ensures var h := Handler(cfg, s, begin, fetched, newId, sessionToken);
      var m1 := Step(cfg, s, begin);
      var m2 := Step(cfg, m1.sys, Exchange(begin.flow, fetched, newId));
      var m3 := Step(cfg, m2.sys, Grant(begin.flow));
      var m4 := Step(cfg, m3.sys, Issue(begin.flow, sessionToken));
      && m4.sys.db == h.db && m4.sys.states == h.states && m4.sys.flows == s.flows
      && [h.answer] == Said(m1.answer) + Said(m2.answer) + Said(m3.answer) + Said(m4.answer)
  {
    hide Exec, Handler, BeginStep, ExchangeStep, GrantStep, IssueStep, RpcRest, BrowserRest;
    HandlerBegins(cfg, s, begin, fetched, newId, sessionToken);
    var m1 := BeginStep(cfg, s, begin);
    if begin.flow in m1.sys.flows {
      LastThreeSteps(cfg, m1.sys, begin.flow, fetched, newId, sessionToken);
      assert m1.sys.flows - {begin.flow} == s.flows;
    } else {
      NoFlowNoStep(cfg, m1.sys, begin.flow, fetched, newId, sessionToken);
    }
  }
}
