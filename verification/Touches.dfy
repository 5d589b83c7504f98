/** Usage bookkeeping is invisible: the fire-and-forget token touches, and the session
    bumps of GetValid, may run in any order and at any later time without changing what
    any other statement answers. */
module Touches {
  import opened Values
  import opened Database
  import opened History
  import opened Introspection
  import opened AuthFlow

  /** Which marks are left out of account: token touches, session bumps, or both. */
  datatype Marks = Marks(touches: bool, bumps: bool)
  {
    predicate Has(cmd: Cmd) {
      (touches && cmd.TouchPat?) || (bumps && cmd.GetValid?)
    }
  }

  /** The run without those marks. */
  function Quiet(q: Marks, tr: Trace): Trace {
    if tr == [] then []
    else Quiet(q, tr[..|tr| - 1]) + (if q.Has(tr[|tr| - 1].cmd) then [] else [tr[|tr| - 1]])
  }

  /** What all its other statements answered, in order. */
  ghost function Answers(q: Marks, tr: Trace): seq<Reply> {
    if tr == [] then []
    else
      var last := |tr| - 1;
      Answers(q, tr[..last]) + if q.Has(tr[last].cmd) then [] else [ReplyAt(tr, last)]
  }

  predicate SameSession(q: Marks, s: Session, t: Session) {
    if q.bumps then s.(lastSeen := None) == t.(lastSeen := None) else s == t
  }

  predicate SamePat(q: Marks, s: Pat, t: Pat) {
    if q.touches then s.(lastUsed := None) == t.(lastUsed := None) else s == t
  }

  /** The same tables up to the usage times those marks set. */
  ghost predicate Alike(q: Marks, a: Db, b: Db) {
    && a.accounts == b.accounts && a.groups == b.groups && a.members == b.members
    && (forall d :: d in a.sessions <==> d in b.sessions)
    && (forall d :: d in a.sessions ==> SameSession(q, a.sessions[d], b.sessions[d]))
    && (forall p :: p in a.pats <==> p in b.pats)
    && (forall p :: p in a.pats ==> SamePat(q, a.pats[p], b.pats[p]))
  }

  lemma {:induction false} MarkKeepsAlike(q: Marks, a: Db, cmd: Cmd, now: Time)
    requires q.Has(cmd)
    ensures Alike(q, Exec(a, cmd, now).db, a)
  {
  }

  lemma {:induction false} SamePatWrites(q: Marks, a: Db, b: Db, cmd: Cmd, now: Time)
    requires Alike(q, a, b) && cmd.CreatePat?
    ensures AddPat(a, cmd, now).reply == AddPat(b, cmd, now).reply
    ensures Alike(q, AddPat(a, cmd, now).db, AddPat(b, cmd, now).db)
  {
    assert DigestTaken(a, Sha256(cmd.token)) <==> DigestTaken(b, Sha256(cmd.token));
  }

  lemma {:induction false} SameCloseAll(q: Marks, a: Db, b: Db, user: UserId, now: Time)
    requires Alike(q, a, b)
    ensures CloseAll(a, user, now).reply == CloseAll(b, user, now).reply
    ensures Alike(q, CloseAll(a, user, now).db, CloseAll(b, user, now).db)
  {
    assert forall d :: d in a.sessions ==>
      SameSession(q, a.sessions[d], b.sessions[d]) && (OpenFor(a.sessions[d], user) <==> OpenFor(b.sessions[d], user));
    assert (set d | d in a.sessions && OpenFor(a.sessions[d], user))
        == (set d | d in b.sessions && OpenFor(b.sessions[d], user));
  }

  lemma {:induction false} SameAccountWrites(q: Marks, a: Db, b: Db, cmd: Cmd, now: Time)
    requires Alike(q, a, b) && WritesAccounts(cmd)
    ensures Exec(a, cmd, now).reply == Exec(b, cmd, now).reply
    ensures Alike(q, Exec(a, cmd, now).db, Exec(b, cmd, now).db)
  {
    if !cmd.DeleteUser? {
      AccountWritesKeepRows(a, cmd, now);
      AccountWritesKeepRows(b, cmd, now);
    }
  }

  lemma {:induction false} AlikeRegrouped(
      q: Marks, a: Db, b: Db, groups: map<GroupId, UserId>, members: set<Membership>)
    requires Alike(q, a, b)
    ensures Alike(q, a.(groups := groups, members := members), b.(groups := groups, members := members))
    ensures a.accounts == b.accounts && a.groups == b.groups && a.members == b.members
  {
  }

  lemma {:induction false} SameGroupWrites(q: Marks, a: Db, b: Db, group: GroupId, user: UserId)
    requires Alike(q, a, b)
    ensures AddGroup(a, group, user).reply == AddGroup(b, group, user).reply
    ensures Alike(q, AddGroup(a, group, user).db, AddGroup(b, group, user).db)
    ensures DropGroup(a, group).reply == DropGroup(b, group).reply
    ensures Alike(q, DropGroup(a, group).db, DropGroup(b, group).db)
    ensures AddMember(a, user, group).reply == AddMember(b, user, group).reply
    ensures Alike(q, AddMember(a, user, group).db, AddMember(b, user, group).db)
  {
    hide Alike;
    AlikeRegrouped(q, a, b, AddGroup(a, group, user).db.groups, a.members);
    AlikeRegrouped(q, a, b, DropGroup(a, group).db.groups, DropGroup(a, group).db.members);
    AlikeRegrouped(q, a, b, a.groups, AddMember(a, user, group).db.members);
  }

  lemma {:induction false} SameSessionWrites(q: Marks, a: Db, b: Db, token: string, user: UserId, ttl: Time, now: Time)
    requires Alike(q, a, b)
    ensures OpenSession(a, token, user, ttl, now).reply == OpenSession(b, token, user, ttl, now).reply
    ensures Alike(q, OpenSession(a, token, user, ttl, now).db, OpenSession(b, token, user, ttl, now).db)
    ensures CloseSession(a, token, now).reply == CloseSession(b, token, now).reply
    ensures Alike(q, CloseSession(a, token, now).db, CloseSession(b, token, now).db)
    ensures !q.bumps ==> BumpSession(a, token, now).reply == BumpSession(b, token, now).reply
    ensures !q.bumps ==> Alike(q, BumpSession(a, token, now).db, BumpSession(b, token, now).db)
  {
    var d := Sha256(token);
    assert d in a.sessions ==> SameSession(q, a.sessions[d], b.sessions[d]);
  }

  lemma {:induction false} SamePatDrop(q: Marks, a: Db, b: Db, pat: PatId, user: UserId, now: Time)
    requires Alike(q, a, b)
    ensures DropPat(a, pat, user, now).reply == DropPat(b, pat, user, now).reply
    ensures Alike(q, DropPat(a, pat, user, now).db, DropPat(b, pat, user, now).db)
  {
    assert pat in a.pats ==> SamePat(q, a.pats[pat], b.pats[pat]);
  }

  lemma {:induction false} SamePatTouch(q: Marks, a: Db, b: Db, pat: PatId, now: Time)
    requires Alike(q, a, b)
    ensures MarkUsed(a, pat, now).reply == MarkUsed(b, pat, now).reply
    ensures Alike(q, MarkUsed(a, pat, now).db, MarkUsed(b, pat, now).db)
  {
    assert pat in a.pats ==> SamePat(q, a.pats[pat], b.pats[pat]);
  }

  /** From alike tables any other statement gives the same answer and alike tables. */
  lemma {:induction false} StepKeepsAlike(q: Marks, a: Db, b: Db, cmd: Cmd, now: Time)
    requires Alike(q, a, b) && !q.Has(cmd)
    ensures Exec(a, cmd, now).reply == Exec(b, cmd, now).reply
    ensures Alike(q, Exec(a, cmd, now).db, Exec(b, cmd, now).db)
  {
    hide Alike;
    match cmd
    case CreateGroup(group, owner) => SameGroupWrites(q, a, b, group, owner);
    case DeleteGroup(group) => SameGroupWrites(q, a, b, group, 0);
    case Join(user, group) => SameGroupWrites(q, a, b, group, user);
    case CreateSession(token, user, ttl) => SameSessionWrites(q, a, b, token, user, ttl, now);
    case GetValid(token) => SameSessionWrites(q, a, b, token, 0, 0, now);
    case RevokeSession(token) => SameSessionWrites(q, a, b, token, 0, 0, now);
    case RevokeAllSessions(user) => SameCloseAll(q, a, b, user, now);
    case CreatePat(_, _, _, _, _, _, _) => SamePatWrites(q, a, b, cmd, now);
    case RevokePat(pat, user) => SamePatDrop(q, a, b, pat, user, now);
    case TouchPat(pat) => SamePatTouch(q, a, b, pat, now);
    case _ => SameAccountWrites(q, a, b, cmd, now);
  }

  lemma {:induction false} QuietRun(q: Marks, tr: Trace)
    ensures Alike(q, After(tr), After(Quiet(q, tr)))
    ensures Answers(q, tr) == Answers(q, Quiet(q, tr))
  {
    hide Exec;
    if tr != [] {
      var last := |tr| - 1;
      var pre, s := tr[..last], tr[last];
      QuietRun(q, pre);
      var quiet := Quiet(q, tr);
      if q.Has(s.cmd) {
        MarkKeepsAlike(q, After(pre), s.cmd, s.at);
        assert quiet == Quiet(q, pre);
        AlikeThrough(q, After(tr), After(pre), After(quiet));
      } else {
        StepKeepsAlike(q, After(pre), After(Quiet(q, pre)), s.cmd, s.at);
        assert quiet[..|quiet| - 1] == Quiet(q, pre);
      }
    }
  }

  lemma {:induction false} AlikeThrough(q: Marks, a: Db, b: Db, c: Db)
    requires Alike(q, a, b) && Alike(q, b, c)
    ensures Alike(q, a, c)
  {
  }

  lemma {:induction false} AlikeBack(q: Marks, a: Db, b: Db)
    requires Alike(q, a, b)
    ensures Alike(q, b, a)
  {
  }

  /** Two runs that differ only in where, when and how often such marks happen give the
      same answers to all other statements, and leave the same tables up to the marks:
      touches are invisible to GetValid too, and bumps to TouchPat. */
  lemma {:induction false} TouchesInvisible(q: Marks, tr: Trace, tr': Trace)
    requires Quiet(q, tr) == Quiet(q, tr')
    ensures Answers(q, tr) == Answers(q, tr')
    ensures Alike(q, After(tr), After(tr'))
  {
    hide Exec, After, Quiet, Answers, Alike;
    QuietRun(q, tr);
    QuietRun(q, tr');
    AlikeBack(q, After(tr'), After(Quiet(q, tr)));
    AlikeThrough(q, After(tr), After(Quiet(q, tr)), After(tr'));
  }

  /** And so does every use of a credential: an introspection and the mint from a cookie,
      their two reads at any two moments, come out alike. */
  lemma {:induction false} CredentialsAlike(
      q: Marks, tr: Trace, m: nat, n: nat, tr': Trace, m': nat, n': nat, token: string, now: Time)
    requires m <= |tr| && n <= |tr| && m' <= |tr'| && n' <= |tr'|
    requires Quiet(q, tr[..m]) == Quiet(q, tr'[..m']) && Quiet(q, tr[..n]) == Quiet(q, tr'[..n'])
    ensures Introspect(After(tr[..m]), After(tr[..n]), token, now)
         == Introspect(After(tr'[..m']), After(tr'[..n']), token, now)
    ensures Mint(After(tr[..m]), After(tr[..n]), token, now) == Mint(After(tr'[..m']), After(tr'[..n']), token, now)
  {
    hide Exec, After, Quiet, Answers, Introspect, Alike, Mint;
    TouchesInvisible(q, tr[..m], tr'[..m']);
    TouchesInvisible(q, tr[..n], tr'[..n']);
    RunsConsistent(tr[..m]);
    RunsConsistent(tr'[..m']);
    AlikeIntrospect(q, After(tr[..m]), After(tr'[..m']), After(tr[..n]), After(tr'[..n']), token, now);
    AlikeMint(q, After(tr[..m]), After(tr'[..m']), After(tr[..n]), After(tr'[..n']), token, now);
  }

  lemma {:induction false} AlikeIntrospect(q: Marks, a: Db, b: Db, a2: Db, b2: Db, token: string, now: Time)
    requires DigestsUnique(a) && DigestsUnique(b)
    requires Alike(q, a, b) && Alike(q, a2, b2)
    ensures Introspect(a, a2, token, now) == Introspect(b, b2, token, now)
  {
    var x, y := FindPat(a, Sha256(token)), FindPat(b, Sha256(token));
    assert x == y by {
      if x.Some? {
        assert SamePat(q, a.pats[x.value], b.pats[x.value]);
        assert b.pats[x.value].digest == Sha256(token);
      }
    }
    if x.Some? {
      assert SamePat(q, a.pats[x.value], b.pats[x.value]);
    }
  }

  lemma {:induction false} AlikeMint(q: Marks, a: Db, b: Db, a2: Db, b2: Db, cookie: string, now: Time)
    requires Alike(q, a, b) && Alike(q, a2, b2)
    ensures Mint(a, a2, cookie, now) == Mint(b, b2, cookie, now)
  {
    var d := Sha256(cookie);
    assert d in a.sessions ==> SameSession(q, a.sessions[d], b.sessions[d]);
  }
}
