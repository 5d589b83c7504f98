/** The row stores answer exactly as a replay of the event log does. The log is the
    run itself: who was issued what, and what happened since. `n` is always a moment
    of the run: the log up to n is its first n steps, the rows at n are those it left. */
module Replay {
  import opened Values
  import opened Accounts
  import opened Database
  import opened History
  import opened Introspection
  import opened AuthFlow

  ghost predicate Deletes(tr: Trace, j: nat, user: UserId)
    requires j < |tr|
  {
    tr[j].cmd == DeleteUser(user) && ReplyAt(tr, j).Hit()
  }

  // ---- Sessions, by the log ----

  ghost predicate IssuesSession(tr: Trace, i: nat, token: string)
    requires i < |tr|
  {
    tr[i].cmd.CreateSession? && tr[i].cmd.token == token && ReplyAt(tr, i).Hit()
  }

  ghost predicate EndsSession(tr: Trace, j: nat, token: string, user: UserId)
    requires j < |tr|
  {
    tr[j].cmd == RevokeSession(token) || tr[j].cmd == RevokeAllSessions(user) || Deletes(tr, j, user)
  }

  /** Step i issued the session and nothing has ended it before n. */
  ghost predicate SessionStands(tr: Trace, n: nat, i: nat, token: string)
    requires i < n <= |tr|
  {
    && IssuesSession(tr, i, token)
    && forall j :: i < j < n ==> !EndsSession(tr, j, token, tr[i].cmd.user)
  }

  /** What creation fixes in a session row. */
  datatype Opened = Opened(token: string, user: UserId, at: Time, until: Time)

  function OpenedBy(s: Step): Opened
    requires s.cmd.CreateSession?
  {
    Opened(s.cmd.token, s.cmd.user, s.at, s.at + s.cmd.ttl)
  }

  ghost predicate UnrevokedSession(db: Db, x: Opened) {
    var d := Sha256(x.token);
    && d in db.sessions
    && db.sessions[d].revokedAt.None?
    && db.sessions[d].userId == x.user
    && db.sessions[d].createdAt == x.at
    && db.sessions[d].expiresAt == x.until
  }

  /** One statement: what makes and what unmakes an unrevoked session row. */
  lemma {:induction false} SessionStep(db: Db, s: Step, x: Opened)
    ensures var o := Exec(db, s.cmd, s.at);
      UnrevokedSession(o.db, x) <==>
        || (s.cmd.CreateSession? && OpenedBy(s) == x && o.reply.Hit())
        || (&& UnrevokedSession(db, x)
            && s.cmd != RevokeSession(x.token) && s.cmd != RevokeAllSessions(x.user)
            && !(s.cmd == DeleteUser(x.user) && o.reply.Hit()))
  {
    if && !s.cmd.CreateSession? && !s.cmd.GetValid? && !s.cmd.RevokeSession? && !s.cmd.RevokeAllSessions?
       && !s.cmd.DeleteUser?
    {
      OthersKeepSessions(db, s.cmd, s.at);
      hide Exec;
    }
  }

  lemma {:induction false} StandingSessionStored(tr: Trace, n: nat, i: nat, token: string)
    requires i < n <= |tr| && SessionStands(tr, n, i, token)
    ensures UnrevokedSession(After(tr[..n]), OpenedBy(tr[i]))
  {
    hide Exec;
    AfterStep(tr, n - 1);
    SessionStep(After(tr[..n - 1]), tr[n - 1], OpenedBy(tr[i]));
    if i < n - 1 {
      StandingSessionStored(tr, n - 1, i, token);
      assert !EndsSession(tr, n - 1, token, tr[i].cmd.user);
    }
  }

  lemma {:induction false} StoredSessionStands(tr: Trace, n: nat, x: Opened) returns (i: nat)
    requires n <= |tr| && UnrevokedSession(After(tr[..n]), x)
    ensures i < n && SessionStands(tr, n, i, x.token) && OpenedBy(tr[i]) == x
  {
    hide Exec;
    AfterStep(tr, n - 1);
    SessionStep(After(tr[..n - 1]), tr[n - 1], x);
    if tr[n - 1].cmd.CreateSession? && OpenedBy(tr[n - 1]) == x && ReplyAt(tr, n - 1).Hit() {
      i := n - 1;
    } else {
      i := StoredSessionStands(tr, n - 1, x);
      assert !EndsSession(tr, n - 1, x.token, x.user);
    }
  }

  /** The log issued this token for a user it has not deleted since: the row is there,
      revoked or not. */
  ghost predicate StoredByLog(tr: Trace, n: nat, token: string)
    requires n <= |tr|
  {
    exists i: nat :: i < n && StoredSince(tr, i, n, token)
  }

  ghost predicate StoredSince(tr: Trace, i: nat, n: nat, token: string)
    requires i < n <= |tr|
  {
    IssuesSession(tr, i, token) && forall j :: i < j < n ==> !Deletes(tr, j, tr[i].cmd.user)
  }

  ghost predicate SessionOf(db: Db, token: string, user: UserId) {
    Sha256(token) in db.sessions && db.sessions[Sha256(token)].userId == user
  }

  lemma {:induction false} SessionOfStep(db: Db, s: Step, token: string, user: UserId)
    ensures var o := Exec(db, s.cmd, s.at);
      SessionOf(o.db, token, user) <==>
        || (s.cmd.CreateSession? && s.cmd.token == token && s.cmd.user == user && o.reply.Hit())
        || (SessionOf(db, token, user) && !(s.cmd == DeleteUser(user) && o.reply.Hit()))
  {
    if && !s.cmd.CreateSession? && !s.cmd.GetValid? && !s.cmd.RevokeSession? && !s.cmd.RevokeAllSessions?
       && !s.cmd.DeleteUser?
    {
      OthersKeepSessions(db, s.cmd, s.at);
      hide Exec;
    }
  }

  lemma {:induction false} IssuedForStored(tr: Trace, i: nat, n: nat, token: string)
    requires i < n <= |tr| && StoredSince(tr, i, n, token)
    ensures SessionOf(After(tr[..n]), token, tr[i].cmd.user)
  {
    hide Exec;
    AfterStep(tr, n - 1);
    SessionOfStep(After(tr[..n - 1]), tr[n - 1], token, tr[i].cmd.user);
    if i < n - 1 {
      IssuedForStored(tr, i, n - 1, token);
      assert !Deletes(tr, n - 1, tr[i].cmd.user);
    }
  }

  lemma {:induction false} StoredWasIssued(tr: Trace, n: nat, token: string, user: UserId) returns (i: nat)
    requires n <= |tr| && SessionOf(After(tr[..n]), token, user)
    ensures i < n && StoredSince(tr, i, n, token) && tr[i].cmd.user == user
  {
    hide Exec;
    AfterStep(tr, n - 1);
    SessionOfStep(After(tr[..n - 1]), tr[n - 1], token, user);
    if tr[n - 1].cmd.CreateSession? && tr[n - 1].cmd.token == token && tr[n - 1].cmd.user == user
       && ReplyAt(tr, n - 1).Hit()
    {
      i := n - 1;
    } else {
      i := StoredWasIssued(tr, n - 1, token, user);
      assert !Deletes(tr, n - 1, user);
    }
  }

  /** Which cookie tokens are taken, by the log. */
  lemma {:induction false} TokenTakenReplay(tr: Trace, n: nat, token: string)
    requires n <= |tr|
    ensures Sha256(token) in After(tr[..n]).sessions <==> StoredByLog(tr, n, token)
  {
    if Sha256(token) in After(tr[..n]).sessions {
      var i := StoredWasIssued(tr, n, token, After(tr[..n]).sessions[Sha256(token)].userId);
    }
    if i: nat :| i < n && StoredSince(tr, i, n, token) {
      IssuedForStored(tr, i, n, token);
    }
  }

  /** GetValid finds a session exactly when the log holds an issue of that token that
      nothing has ended and that expires strictly after now; the row it returns is the
      one issued there. */
  lemma {:induction false} SessionReplay(tr: Trace, n: nat, token: string, now: Time)
    requires n <= |tr|
    ensures var r := Exec(After(tr[..n]), GetValid(token), now).reply;
      && (r.SessionRow? <==> exists i: nat :: i < n && SessionStands(tr, n, i, token) && now < tr[i].at + tr[i].cmd.ttl)
      && (forall i: nat :: i < n && SessionStands(tr, n, i, token) && r.SessionRow? ==>
        && r.session.userId == tr[i].cmd.user
        && r.session.createdAt == tr[i].at
        && r.session.expiresAt == tr[i].at + tr[i].cmd.ttl
        && r.session.lastSeen == Some(now) && r.session.revokedAt == None)
  {
    var db := After(tr[..n]);
    var r := Exec(db, GetValid(token), now).reply;
    forall i: nat | i < n && SessionStands(tr, n, i, token)
      ensures UnrevokedSession(db, OpenedBy(tr[i]))
    {
      StandingSessionStored(tr, n, i, token);
    }
    if r.SessionRow? {
      var i := StoredSessionStands(tr, n, Opened(token, r.session.userId, r.session.createdAt, r.session.expiresAt));
    }
  }

  // ---- Personal access tokens, by the log ----

  ghost predicate IssuesPat(tr: Trace, i: nat, token: string)
    requires i < |tr|
  {
    tr[i].cmd.CreatePat? && tr[i].cmd.token == token && ReplyAt(tr, i).Hit()
  }

  ghost predicate EndsPat(tr: Trace, j: nat, pat: PatId, user: UserId)
    requires j < |tr|
  {
    tr[j].cmd == RevokePat(pat, user) || Deletes(tr, j, user)
  }

  ghost predicate PatStands(tr: Trace, n: nat, i: nat, token: string)
    requires i < n <= |tr|
  {
    && IssuesPat(tr, i, token)
    && forall j :: i < j < n ==> !EndsPat(tr, j, tr[i].cmd.pat, tr[i].cmd.user)
  }

  /** What creation fixes in a token row. */
  datatype Issue = Issue(pat: PatId, user: UserId, token: string, scopes: seq<string>, expiresAt: Option<Time>)

  function IssueOf(c: Cmd): Issue
    requires c.CreatePat?
  {
    Issue(c.pat, c.user, c.token, c.scopes, c.expiresAt)
  }

  ghost predicate UnrevokedPat(db: Db, x: Issue) {
    && x.pat in db.pats
    && db.pats[x.pat].revokedAt.None?
    && db.pats[x.pat].userId == x.user
    && db.pats[x.pat].digest == Sha256(x.token)
    && db.pats[x.pat].scopes == x.scopes
    && db.pats[x.pat].expiresAt == x.expiresAt
  }

  lemma {:induction false} PatStep(db: Db, s: Step, x: Issue)
    ensures var o := Exec(db, s.cmd, s.at);
      UnrevokedPat(o.db, x) <==>
        || (s.cmd.CreatePat? && IssueOf(s.cmd) == x && o.reply.Hit())
        || (UnrevokedPat(db, x) && s.cmd != RevokePat(x.pat, x.user) && !(s.cmd == DeleteUser(x.user) && o.reply.Hit()))
  {
    if s.cmd.CreatePat? || s.cmd.RevokePat? || s.cmd.TouchPat? || s.cmd.DeleteUser? {
    } else {
      OthersKeepPats(db, s.cmd, s.at);
      hide Exec;
    }
  }

  lemma {:induction false} StandingPatStored(tr: Trace, n: nat, i: nat, token: string)
    requires i < n <= |tr| && PatStands(tr, n, i, token)
    ensures UnrevokedPat(After(tr[..n]), IssueOf(tr[i].cmd))
  {
    hide Exec;
    AfterStep(tr, n - 1);
    PatStep(After(tr[..n - 1]), tr[n - 1], IssueOf(tr[i].cmd));
    if i < n - 1 {
      StandingPatStored(tr, n - 1, i, token);
      assert !EndsPat(tr, n - 1, tr[i].cmd.pat, tr[i].cmd.user);
    }
  }

  lemma {:induction false} StoredPatStands(tr: Trace, n: nat, x: Issue) returns (i: nat)
    requires n <= |tr| && UnrevokedPat(After(tr[..n]), x)
    ensures i < n && PatStands(tr, n, i, x.token) && IssueOf(tr[i].cmd) == x
  {
    hide Exec;
    AfterStep(tr, n - 1);
    PatStep(After(tr[..n - 1]), tr[n - 1], x);
    if tr[n - 1].cmd.CreatePat? && IssueOf(tr[n - 1].cmd) == x && ReplyAt(tr, n - 1).Hit() {
      i := n - 1;
    } else {
      i := StoredPatStands(tr, n - 1, x);
      assert !EndsPat(tr, n - 1, x.pat, x.user);
    }
  }

  // ---- Owners, by the log ----

  /** The log has answered with this account, and not deleted it since. */
  ghost predicate KnownByLog(tr: Trace, n: nat, id: UserId)
    requires n <= |tr|
  {
    exists k: nat :: k < n && Shows(tr, k, id) && forall j :: k < j < n ==> !Deletes(tr, j, id)
  }

  ghost predicate Shows(tr: Trace, k: nat, id: UserId)
    requires k < |tr|
  {
    ReplyAt(tr, k).UserRow? && ReplyAt(tr, k).user.id == id
  }

  lemma {:induction false} PresenceStep(db: Db, cmd: Cmd, now: Time, id: UserId)
    requires RowsNumbered(db.accounts)
    ensures var o := Exec(db, cmd, now);
      id in o.db.Users() <==>
        (o.reply.UserRow? && o.reply.user.id == id) || (id in db.Users() && !(cmd == DeleteUser(id) && o.reply.Hit()))
  {
    if !WritesAccounts(cmd) {
      OthersKeepAccounts(db, cmd, now);
    }
  }

  lemma {:induction false} KnownStep(tr: Trace, n: nat, id: UserId)
    requires 0 < n <= |tr|
    ensures KnownByLog(tr, n, id) <==>
      Shows(tr, n - 1, id) || (KnownByLog(tr, n - 1, id) && !Deletes(tr, n - 1, id))
  {
    hide Shows, Deletes, After, Exec;
    var m := n - 1;
    assert Shows(tr, m, id) ==> KnownByLog(tr, n, id);
    if KnownByLog(tr, m, id) && !Deletes(tr, m, id) {
      var k: nat :| k < m && Shows(tr, k, id) && forall j :: k < j < m ==> !Deletes(tr, j, id);
      assert KnownByLog(tr, n, id);
    }
  }

  /** The accounts that exist are those the log knows. */
  lemma {:induction false} PresenceReplay(tr: Trace, n: nat, id: UserId)
    requires n <= |tr|
    ensures id in After(tr[..n]).Users() <==> KnownByLog(tr, n, id)
  {
    if n > 0 {
      hide Exec, Consistent, RowsNumbered, KnownByLog;
      PresenceReplay(tr, n - 1, id);
      KnownStep(tr, n, id);
      AfterStep(tr, n - 1);
      NumberedAfter(tr[..n - 1]);
      PresenceStep(After(tr[..n - 1]), tr[n - 1].cmd, tr[n - 1].at, id);
    }
  }

  lemma {:induction false} NumberedAfter(tr: Trace)
    ensures RowsNumbered(After(tr).accounts)
  {
    RunsConsistent(tr);
  }

  /** Step k creates the account active, or is an administrator's update enabling it. */
  ghost predicate Enables(tr: Trace, k: nat, id: UserId)
    requires k < |tr|
  {
    var r := ReplyAt(tr, k);
    r.UserRow? &&
    match tr[k].cmd
    case Login(_, _) => r.user.id == id && !KnownByLog(tr, k, id)
    case CreateUser(draft, newId) => newId == id && draft.active
    case UpdateUser(u, patch) => u == id && patch.active
    case _ => false
  }

  ghost predicate Disables(tr: Trace, k: nat, id: UserId)
    requires k < |tr|
  {
    ReplyAt(tr, k).Hit() &&
    match tr[k].cmd
    case UpdateUser(u, patch) => u == id && !patch.active
    case DeleteUser(u) => u == id
    case _ => false
  }

  /** The log enabled the account and neither disabled nor deleted it before n. */
  ghost predicate ActiveByLog(tr: Trace, n: nat, id: UserId)
    requires n <= |tr|
  {
    exists k: nat :: k < n && Enables(tr, k, id) && forall j :: k < j < n ==> !Disables(tr, j, id)
  }

  ghost predicate ActiveRow(db: Db, id: UserId) {
    id in db.Users() && db.Users()[id].active
  }

  lemma {:induction false} ActiveStep(tr: Trace, k: nat, id: UserId)
    requires k < |tr|
    ensures ActiveRow(After(tr[..k + 1]), id) <==>
      Enables(tr, k, id) || (ActiveRow(After(tr[..k]), id) && !Disables(tr, k, id))
  {
    hide Exec, KnownByLog;
    AfterStep(tr, k);
    NumberedAfter(tr[..k]);
    PresenceReplay(tr, k, id);
    ActiveChange(After(tr[..k]), tr[k].cmd, tr[k].at, id);
  }

  lemma {:induction false} ActiveChange(db: Db, cmd: Cmd, now: Time, id: UserId)
    requires RowsNumbered(db.accounts)
    ensures var o := Exec(db, cmd, now);
      ActiveRow(o.db, id) <==>
        || (o.reply.UserRow? &&
            match cmd
            case Login(_, _) => o.reply.user.id == id && id !in db.Users()
            case CreateUser(draft, newId) => newId == id && draft.active
            case UpdateUser(u, patch) => u == id && patch.active
            case _ => false)
        || (ActiveRow(db, id) && !(o.reply.Hit() &&
            match cmd
            case UpdateUser(u, patch) => u == id && !patch.active
            case DeleteUser(u) => u == id
            case _ => false))
  {
    if !WritesAccounts(cmd) {
      OthersKeepAccounts(db, cmd, now);
    }
  }

  lemma {:induction false} OwnerReplay(tr: Trace, n: nat, id: UserId)
    requires n <= |tr|
    ensures ActiveRow(After(tr[..n]), id) <==> ActiveByLog(tr, n, id)
  {
    hide Exec, Enables, Disables;
    if n > 0 {
      OwnerReplay(tr, n - 1, id);
      ActiveStep(tr, n - 1, id);
      assert Enables(tr, n - 1, id) ==> ActiveByLog(tr, n, id);
      if ActiveByLog(tr, n - 1, id) && !Disables(tr, n - 1, id) {
        var k: nat :| k < n - 1 && Enables(tr, k, id) && forall j :: k < j < n - 1 ==> !Disables(tr, j, id);
        assert ActiveByLog(tr, n, id);
      }
    }
  }

  // ---- Introspection, by the log ----

  /** The issue at step i is what a log of m steps (token) and n steps (owner) accepts. */
  ghost predicate Accepts(tr: Trace, m: nat, n: nat, i: nat, token: string, now: Time)
    requires i < m <= n <= |tr|
  {
    && PatStands(tr, m, i, token)
    && (tr[i].cmd.expiresAt.Some? ==> now <= tr[i].cmd.expiresAt.value)
    && ActiveByLog(tr, n, tr[i].cmd.user)
  }

  /** Introspect, its two reads m and n statements into the run, reports active exactly
      when the log up to the first read holds an issue of that token nothing has ended,
      not past its own expiry, whose owner is active by the log up to the second. Scopes
      and expiry are those issued, the identity is the owner's; m == n is the atomic
      reading. */
  lemma {:induction false} IntrospectReplay(tr: Trace, m: nat, n: nat, token: string, now: Time)
    requires m <= n <= |tr|
    ensures var v := Introspect(After(tr[..m]), After(tr[..n]), token, now);
      && (v.active <==> "pat_" <= token && exists i: nat :: i < m && Accepts(tr, m, n, i, token, now))
      && (!v.active ==> v == Verdict(false, 0, "", "", [], None))
      && (forall i: nat :: i < m && Accepts(tr, m, n, i, token, now) && v.active ==>
        && v.scopes == tr[i].cmd.scopes && v.expiresAt == tr[i].cmd.expiresAt
        && tr[i].cmd.user in After(tr[..n]).Users()
        && var owner := After(tr[..n]).Users()[tr[i].cmd.user];
           v.userId == owner.appId && v.email == owner.email && v.name == owner.name)
  {
    var first, second := After(tr[..m]), After(tr[..n]);
    assert DigestsUnique(first) by {
      RunsConsistent(tr[..m]);
    }
    var v := Introspect(first, second, token, now);
    forall i: nat | i < m && Accepts(tr, m, n, i, token, now)
      ensures FindPat(first, Sha256(token)) == Some(tr[i].cmd.pat) && UnrevokedPat(first, IssueOf(tr[i].cmd))
      ensures ActiveRow(second, tr[i].cmd.user)
    {
      StandingPatStored(tr, m, i, token);
      OwnerReplay(tr, n, tr[i].cmd.user);
    }
    if v.active {
      var p := FindPat(first, Sha256(token)).value;
      var row := first.pats[p];
      var i := StoredPatStands(tr, m, Issue(p, row.userId, token, row.scopes, row.expiresAt));
      OwnerReplay(tr, n, row.userId);
      assert Accepts(tr, m, n, i, token, now);
    }
  }

  /** A standing token of an active owner stops being accepted when the clock passes its
      expiry, and never for that reason when it has none. */
  lemma {:induction false} ExpiresExactly(tr: Trace, m: nat, n: nat, i: nat, token: string, now: Time)
    requires i < m <= n <= |tr| && PatStands(tr, m, i, token) && ActiveByLog(tr, n, tr[i].cmd.user)
    requires "pat_" <= token
    ensures Introspect(After(tr[..m]), After(tr[..n]), token, now).active <==>
      match tr[i].cmd.expiresAt
      case None => true
      case Some(expiry) => !(expiry < now)
  {
    var first, second := After(tr[..m]), After(tr[..n]);
    assert DigestsUnique(first) by {
      RunsConsistent(tr[..m]);
    }
    StandingPatStored(tr, m, i, token);
    OwnerReplay(tr, n, tr[i].cmd.user);
    assert FindPat(first, Sha256(token)) == Some(tr[i].cmd.pat);
    hide After, PatStands, ActiveByLog;
  }

  // ---- Cookies and JWTs, by the log ----

  ghost predicate Mints(tr: Trace, m: nat, n: nat, i: nat, cookie: string, now: Time)
    requires i < m <= n <= |tr|
  {
    SessionStands(tr, m, i, cookie) && now < tr[i].at + tr[i].cmd.ttl && ActiveByLog(tr, n, tr[i].cmd.user)
  }

  /** The silent mint, its two statements m and n statements into the run, answers a cookie
      exactly when the log up to the first holds a session under it that nothing has ended
      and that expires strictly after now, and its owner is active by the log up to the
      second; the claims are the owner's of that moment. m == n is the atomic reading. */
  lemma {:induction false} MintReplay(tr: Trace, m: nat, n: nat, cookie: string, now: Time)
    requires m <= n <= |tr|
    ensures var first, second := After(tr[..m]), After(tr[..n]);
      && (Mint(first, second, cookie, now).Some? <==>
        cookie != "" && exists i: nat :: i < m && Mints(tr, m, n, i, cookie, now))
      && (forall i: nat :: i < m && Mints(tr, m, n, i, cookie, now) && cookie != "" ==>
        && tr[i].cmd.user in second.Users()
        && var owner := second.Users()[tr[i].cmd.user];
           Mint(first, second, cookie, now) ==
             Some(Claims(owner.appId, owner.email, owner.roles.Some? && "admin" in owner.roles.value)))
  {
    var first, second := After(tr[..m]), After(tr[..n]);
    forall i: nat | i < m && Mints(tr, m, n, i, cookie, now)
      ensures UnrevokedSession(first, OpenedBy(tr[i])) && ActiveRow(second, tr[i].cmd.user)
    {
      StandingSessionStored(tr, m, i, cookie);
      OwnerReplay(tr, n, tr[i].cmd.user);
    }
    if Mint(first, second, cookie, now).Some? {
      var s := first.sessions[Sha256(cookie)];
      var i := StoredSessionStands(tr, m, Opened(cookie, s.userId, s.createdAt, s.expiresAt));
      OwnerReplay(tr, n, s.userId);
      assert Mints(tr, m, n, i, cookie, now);
    }
  }

  /** A revocation is final: as long as that token is not issued anew, no later moment
      finds its session, or mints from it, whatever else happens. */
  lemma {:induction false} RevocationIsFinal(tr: Trace, i: nat, n: nat, later: nat, token: string, now: Time)
    requires i < n <= later <= |tr| && tr[i].cmd == RevokeSession(token)
    requires forall k :: i < k < n ==> !IssuesSession(tr, k, token)
    ensures !BumpSession(After(tr[..n]), token, now).reply.SessionRow?
    ensures Mint(After(tr[..n]), After(tr[..later]), token, now).None?
  {
    SessionReplay(tr, n, token, now);
    assert Exec(After(tr[..n]), GetValid(token), now) == BumpSession(After(tr[..n]), token, now);
    hide Exec, BumpSession, After;
    forall k: nat | k < n
      ensures !SessionStands(tr, n, k, token)
    {
      if k < i && IssuesSession(tr, k, token) {
        assert EndsSession(tr, i, token, tr[k].cmd.user);
      }
    }
  }

  /** A JWT minted for account x resolves, at any later moment, to x or to nobody: app ids
      are never reassigned. It resolves exactly while x is active under that app id. */
  lemma {:induction false} TokenNamesItsOwner(tr: Trace, i: nat, j: nat, x: UserId)
    requires i <= j <= |tr| && x in After(tr[..i]).Users()
    ensures var claims := ClaimsOf(After(tr[..i]).Users()[x]);
      var users := After(tr[..j]).Users();
      ValidateToken(After(tr[..j]), claims) ==
        if x in users && users[x].appId == claims.userId && users[x].active then Some(users[x]) else None
  {
    var appId := After(tr[..i]).Users()[x].appId;
    var found := FindByAppId(After(tr[..j]), appId);
    if found.Some? {
      AppIdsNotReassigned(tr, i, j, x, found.value);
    }
  }
}
