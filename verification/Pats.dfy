/** Personal access tokens: drawing, scopes, creation, introspection, revocation. */
module Pats {
  import opened Values
  import opened Database
  import opened Introspection
  import I = Introspection
  import opened AuthFlow
  import opened Admin
  import opened AuthDatabases
  import opened Replay
  import A = Accounts
  import H = History

  const PAT_RANDOM_CHARS := 32
  const PAT_DISPLAY_PREFIX_LEN := 12
  const DEFAULT_PAT_SCOPES := ["notes:read", "notes:write", "notes:mcp"]

  // ---- Tokens ----

  /** The n-th character of "0-9A-Za-z". */
  function Base62(n: nat): char
    requires n < 62
  {
    if n < 10 then '0' + (n as char) else if n < 36 then 'A' + ((n - 10) as char) else 'a' + ((n - 36) as char)
  }

  const DIGITS := "0123456789"
  const CAPITAL_LETTERS := "ABCDEFGHIJKLMNOPQRSTUVWXYZ"
  const SMALL_LETTERS := "abcdefghijklmnopqrstuvwxyz"

  lemma {:induction false} InOrder(n: nat)
    ensures n < 10 ==> DIGITS[n] as int == 48 + n
    ensures n < 26 ==> CAPITAL_LETTERS[n] as int == 65 + n
    ensures n < 26 ==> SMALL_LETTERS[n] as int == 97 + n
  {
  }

  /** The alphabet: digits, capitals, small letters. */
  lemma {:induction false} Base62Exactly(n: nat)
    requires n < 62
    ensures Base62(n) ==
      if n < 10 then DIGITS[n] else if n < 36 then CAPITAL_LETTERS[n - 10] else SMALL_LETTERS[n - 36]
  {
    InOrder(if n < 10 then n else if n < 36 then n - 10 else n - 36);
  }

  predicate Alphanumeric(c: char) {
    '0' <= c <= '9' || 'A' <= c <= 'Z' || 'a' <= c <= 'z'
  }

  predicate AllDrawn(draws: seq<Option<nat>>) {
    forall i :: 0 <= i < |draws| ==> draws[i].Some? && draws[i].value < 62
  }

  /** What the random source may come to: numbers below 62, or failures. */
  predicate Draws(draws: seq<Option<nat>>) {
    |draws| == PAT_RANDOM_CHARS && forall i :: 0 <= i < |draws| && draws[i].Some? ==> draws[i].value < 62
  }

  function Encoded(draws: seq<Option<nat>>): (s: string)
    requires AllDrawn(draws)
    ensures |s| == |draws|
    ensures forall i :: 0 <= i < |s| ==> Alphanumeric(s[i]) && s[i] == Base62(draws[i].value)
  {
    if draws == [] then "" else [Base62(draws[0].value)] + Encoded(draws[1..])
  }

  method GeneratePatToken(draws: seq<Option<nat>>) returns (token: Option<string>)
    requires Draws(draws)
    ensures token.Some? <==> AllDrawn(draws)
    ensures token.Some? ==> token.value == PAT_PREFIX + Encoded(draws)
  {
    var chars := PAT_PREFIX;
    for i := 0 to PAT_RANDOM_CHARS
      invariant forall k :: 0 <= k < i ==> draws[k].Some?
      invariant |chars| == |PAT_PREFIX| + i && chars[..|PAT_PREFIX|] == PAT_PREFIX
      invariant forall k :: 0 <= k < i ==> chars[|PAT_PREFIX| + k] == Base62(draws[k].value)
    {
      if draws[i].None? {
        return None;
      }
      chars := chars + [Base62(draws[i].value)];
    }
    assert chars == PAT_PREFIX + Encoded(draws);
    token := Some(chars);
  }

  /** Different draws give different tokens, and every token drawn looks like one. */
  lemma {:induction false} TokensTellDrawsApart(a: seq<Option<nat>>, b: seq<Option<nat>>)
    requires |a| == |b| && AllDrawn(a) && AllDrawn(b)
    ensures PAT_PREFIX + Encoded(a) == PAT_PREFIX + Encoded(b) ==> a == b
    ensures "pat_" <= PAT_PREFIX + Encoded(a) && LooksLikePat(PAT_PREFIX + Encoded(a))
  {
  }

  // ---- Scopes ----

  predicate LowerLetter(c: char) { 'a' <= c <= 'z' }

  predicate ScopeChar(c: char) { 'a' <= c <= 'z' || '0' <= c <= '9' || c == '-' }

  /** [a-z][a-z0-9-]* */
  predicate ScopeWord(s: string) {
    s != "" && LowerLetter(s[0]) && forall i :: 0 <= i < |s| ==> ScopeChar(s[i])
  }

  /** The whole of s is word ":" word. */
  predicate ScopeMatches(s: string) {
    exists i :: 0 <= i < |s| && s[i] == ':' && ScopeWord(s[..i]) && ScopeWord(s[i + 1..])
  }

  const SCOPE_CHARS := SMALL_LETTERS + DIGITS + "-"

  lemma {:induction false} SmallLetterExactly(c: char)
    ensures LowerLetter(c) <==> c in SMALL_LETTERS
  {
    if 'a' <= c <= 'z' {
      assert SMALL_LETTERS[(c - 'a') as int] == c;
    }
  }

  lemma {:induction false} DigitExactly(c: char)
    ensures '0' <= c <= '9' <==> c in DIGITS
  {
    if '0' <= c <= '9' {
      assert DIGITS[(c - '0') as int] == c;
    }
  }

  lemma {:induction false} ScopeCharExactly(c: char)
    ensures LowerLetter(c) <==> c in SMALL_LETTERS
    ensures ScopeChar(c) <==> c in SCOPE_CHARS
  {
    SmallLetterExactly(c);
    DigitExactly(c);
    hide SMALL_LETTERS, DIGITS;
  }

  lemma {:induction false} ScopeWordExactly(w: string)
    ensures ScopeWord(w) <==> w != "" && w[0] in SMALL_LETTERS && forall k :: 0 <= k < |w| ==> w[k] in SCOPE_CHARS
  {
    if w != "" {
      ScopeCharExactly(w[0]);
    }
    forall k | 0 <= k < |w|
      ensures ScopeChar(w[k]) <==> w[k] in SCOPE_CHARS
    {
      ScopeCharExactly(w[k]);
    }
    hide LowerLetter, ScopeChar;
  }

  /** s is a scope with its colon at i: a small letter on each side starts a run of small
      letters, digits and hyphens up to the end. */
  predicate ColonAt(s: string, i: nat) {
    && 0 < i < |s| - 1 && s[i] == ':'
    && s[0] in SMALL_LETTERS && s[i + 1] in SMALL_LETTERS
    && forall k :: 0 <= k < |s| && k != i ==> s[k] in SCOPE_CHARS
  }

  lemma {:induction false} ScopeMatchesExactly(s: string)
    ensures ScopeMatches(s) <==> exists i :: ColonAt(s, i)
  {
    forall i: nat | i < |s|
      ensures s[i] == ':' && ScopeWord(s[..i]) && ScopeWord(s[i + 1..]) <==> ColonAt(s, i)
    {
      ScopeWordExactly(s[..i]);
      ScopeWordExactly(s[i + 1..]);
      hide ScopeWord;
      assert forall k :: 0 <= k < i ==> s[k] == s[..i][k];
      assert forall k :: i < k < |s| ==> s[k] == s[i + 1..][k - i - 1];
    }
  }

  datatype PatError = BadRequest | Random | Store(error: DbError)

  method ValidatePatScopes(scopes: seq<string>) returns (r: Result<seq<string>, PatError>)
    ensures r == if scopes == [] then Ok(DEFAULT_PAT_SCOPES)
                 else if forall s :: s in scopes ==> ScopeMatches(s) then Ok(scopes)
                 else Err(BadRequest)
    ensures r.Ok? ==> r.value != []
  {
    if |scopes| == 0 {
      return Ok(DEFAULT_PAT_SCOPES);
    }
    for i := 0 to |scopes|
      invariant forall k :: 0 <= k < i ==> ScopeMatches(scopes[k])
    {
      if !ScopeMatches(scopes[i]) {
        assert scopes[i] in scopes;
        return Err(BadRequest);
      }
    }
    r := Ok(scopes);
  }

  /** What a request is refused for before anything is drawn or stored. */
  predicate AcceptableRequest(name: string, scopes: seq<string>, expiresInDays: int) {
    && 1 <= |name| <= 100
    && expiresInDays >= 0
    && forall s :: s in scopes ==> ScopeMatches(s)
  }

  /** A blank name passes the request checks, and is then the one thing the table's CHECK
      refuses in an acceptable request. */
  lemma {:induction false} BlankNameRefusedByTable(
      db: Db, pat: PatId, user: UserId, token: string, prefix: string, name: string, scopes: seq<string>,
      expiresInDays: int, expiresAt: Option<Time>, now: Time)
    requires AcceptableRequest(name, scopes, expiresInDays)
    ensures var c := CreatePat(pat, user, token, prefix, name, scopes, expiresAt);
      AddPat(db, c, now).reply == Failed(Violates(NameCheck)) <==> forall i :: 0 <= i < |name| ==> name[i] == ' '
  {
    hide DigestTaken;
  }

  function ScopesFor(scopes: seq<string>): seq<string> {
    if scopes == [] then DEFAULT_PAT_SCOPES else scopes
  }

  function ExpiryOf(expiresInDays: int, now: Time): Option<Time> {
    if expiresInDays > 0 then Some(now + expiresInDays * DAY) else None
  }

  class PatService {
    const db: AuthDatabase

    constructor (db: AuthDatabase)
      ensures this.db == db
    {
      this.db := db;
    }

    /** The full token leaves only here; the table gets its digest and display prefix. A
        name of blanks passes the service and is refused by the table's CHECK. */
    method Create(userId: UserId, name: string, scopes: seq<string>, expiresInDays: int,
                  draws: seq<Option<nat>>, pat: PatId, now: Time)
      returns (r: Result<(string, Pat), PatError>)
      requires db.Valid() && Draws(draws)
      modifies db`pats
      ensures db.Valid()
      ensures r == Err(BadRequest) <==>
        |name| == 0 || |name| > 100 || expiresInDays < 0 || exists s :: s in scopes && !ScopeMatches(s)
      ensures r == Err(BadRequest) ==> db.Snapshot() == old(db.Snapshot())
      ensures AcceptableRequest(name, scopes, expiresInDays) && !AllDrawn(draws) ==>
        r == Err(Random) && db.Snapshot() == old(db.Snapshot())
      ensures AcceptableRequest(name, scopes, expiresInDays) && AllDrawn(draws) ==>
        var token := PAT_PREFIX + Encoded(draws);
        var o := AddPat(old(db.Snapshot()),
          CreatePat(pat, userId, token, token[..PAT_DISPLAY_PREFIX_LEN], name, ScopesFor(scopes),
                    ExpiryOf(expiresInDays, now)), now);
        && db.Snapshot() == o.db
        && match o.reply
           case PatRow(row) => r == Ok((token, row))
           case Failed(e) => r == Err(Store(e))
           case _ => false
      ensures r == Err(Store(Violates(NameCheck))) <==>
        AcceptableRequest(name, scopes, expiresInDays) && AllDrawn(draws) &&
        forall i :: 0 <= i < |name| ==> name[i] == ' '
      ensures r.Ok? ==>
        var token, row := r.value.0, r.value.1;
        && "pat_" <= token && |token| == 36
        && pat in db.pats && db.pats[pat] == row
        && row == Pat(userId, Sha256(token), token[..12], name,
                      if |scopes| == 0 then ["notes:read", "notes:write", "notes:mcp"] else scopes, now,
                      if expiresInDays == 0 then None else Some(now + expiresInDays * 86_400_000_000_000),
                      None, None)
    {
      hide AuthDatabase.Valid, DigestTaken;
      if name == "" || |name| > 100 {
        return Err(BadRequest);
      }
      if expiresInDays < 0 {
        return Err(BadRequest);
      }
      var normalized := ValidatePatScopes(scopes);
      if normalized.Err? {
        return Err(normalized.error);
      }
      var token := GeneratePatToken(draws);
      if token.None? {
        return Err(Random);
      }
      var expiresAt: Option<Time> := None;
      if expiresInDays > 0 {
        expiresAt := Some(now + expiresInDays * DAY);
      }
      var prefix := token.value[..PAT_DISPLAY_PREFIX_LEN];
      var row := db.CreatePat(pat, userId, token.value, prefix, name, normalized.value, expiresAt, now);
      match row
      case Ok(p) => r := Ok((token.value, p));
      case Err(e) => r := Err(Store(e));
    }

    /** The verdict, and the usage touch it leaves to a background task, if any. */
    method Introspect(token: string, now: Time) returns (v: Verdict, touch: Option<PatId>)
      requires db.Valid()
      ensures v == I.Introspect(db.Snapshot(), db.Snapshot(), token, now)
      ensures touch == if v.active then FindPat(db.Snapshot(), Sha256(token)) else None
    {
      if !LooksLikePat(token) {
        return INACTIVE, None;
      }
      var found := db.GetByHash(Sha256(token));
      if found.None? {
        return INACTIVE, None;
      }
      var pat := db.pats[found.value];
      if pat.revokedAt.Some? {
        return INACTIVE, None;
      }
      if pat.expiresAt.Some? && now > pat.expiresAt.value {
        return INACTIVE, None;
      }
      if pat.userId !in db.users.rows {
        return INACTIVE, None;
      }
      var user := db.users.rows[pat.userId];
      if !user.active {
        return INACTIVE, None;
      }
      return Verdict(true, user.appId, user.email, user.name, pat.scopes, pat.expiresAt), found;
    }

    /** Introspection over the wire, where `tr` is the run of statements so far: an active
        answer discloses what was issued and who owns it, every other token gets the one
        INACTIVE answer (RFC 7662, section 2.2), whatever is wrong with it. */
    method IntrospectToken(token: string, now: Time, ghost tr: H.Trace)
      returns (response: Verdict, touch: Option<PatId>)
      requires db.Valid() && db.Snapshot() == H.After(tr)
      ensures response != Verdict(false, 0, "", "", [], None) <==>
        "pat_" <= token && exists i: nat :: i < |tr| && Accepts(tr, |tr|, |tr|, i, token, now)
      ensures forall i: nat :: i < |tr| && Accepts(tr, |tr|, |tr|, i, token, now) && "pat_" <= token ==>
        && tr[i].cmd.user in db.users.rows
        && var owner := db.users.rows[tr[i].cmd.user];
           response == Verdict(true, owner.appId, owner.email, owner.name, tr[i].cmd.scopes, tr[i].cmd.expiresAt)
      ensures touch == if response.active then FindPat(db.Snapshot(), Sha256(token)) else None
    {
      var result, touched := Introspect(token, now);
      assert tr[..|tr|] == tr;
      IntrospectReplay(tr, |tr|, |tr|, token, now);
      response := INACTIVE;
      if result.active {
        response := Verdict(true, result.userId, result.email, result.name, result.scopes, result.expiresAt);
      }
      touch := touched;
    }

    /** Revocation over the wire: the caller's account first, then the guarded update. */
    method RevokePersonalAccessToken(caller: Claims, pat: PatId, now: Time) returns (r: Revocation)
      requires db.Valid()
      modifies db`pats
      ensures db.Valid()
      ensures Revoking(db.Snapshot(), r) == RevokeAs(old(db.Snapshot()), caller, pat, now)
    {
      var appId := Narrow(caller.userId);
      if appId == 0 {
        return Unauthenticated;
      }
      var user := db.GetByAlternateAppID(appId);
      if user.None? {
        return Unauthenticated;
      }
      var revoked := db.RevokePat(pat, user.value, now);
      r := if revoked then Revoked else NotFound;
    }
  }

  // ---- Whose tokens a caller can revoke ----

  datatype Revocation = Unauthenticated | NotFound | Revoked

  datatype Revoking = Revoking(db: Db, answer: Revocation)

  /** The account an authenticated call acts for: its id comes narrowed from the context. */
  ghost function CallerAccount(db: Db, caller: Claims): Option<UserId> {
    if Narrow(caller.userId) == 0 then None else FindByAppId(db, Narrow(caller.userId))
  }

  ghost function RevokeAs(db: Db, caller: Claims, pat: PatId, now: Time): Revoking {
    match CallerAccount(db, caller)
    case None => Revoking(db, Unauthenticated)
    case Some(user) =>
      var o := DropPat(db, pat, user, now);
      Revoking(o.db, if o.reply.Hit() then Revoked else NotFound)
  }

  /** A call acts for the account whose app id is the narrowed one, whoever that is. */
  lemma {:induction false} CallerActsFor(db: Db, caller: Claims, y: UserId)
    requires Consistent(db)
    ensures CallerAccount(db, caller) == Some(y) <==> y in db.Users() && db.Users()[y].appId == Narrow(caller.userId)
  {
    assert A.AppIdsUnique(db.Users()) && A.RowsNumbered(db.accounts);
  }

  /** A JWT minted for account x acts, at any later moment, for x exactly when x is still
      there under that app id and the id fits 32 bits. */
  lemma {:induction false} CallerIsOwner(tr: H.Trace, i: nat, j: nat, x: UserId)
    requires i <= j <= |tr| && x in H.After(tr[..i]).Users()
    ensures var claims := ClaimsOf(H.After(tr[..i]).Users()[x]);
      var users := H.After(tr[..j]).Users();
      CallerAccount(H.After(tr[..j]), claims) == Some(x) <==>
        x in users && users[x].appId == claims.userId && claims.userId <= INT32_MAX
  {
    hide H.After;
    var appId := H.After(tr[..i]).Users()[x].appId;
    var now := H.After(tr[..j]);
    var found := FindByAppId(now, Narrow(appId));
    H.AppIdPositive(tr[..i], x);
    NarrowExact(appId);
    if x in now.Users() {
      H.AppIdNeverFalls(tr, i, j, x);
      if now.Users()[x].appId == appId == Narrow(appId) {
        H.AppIdsNotReassigned(tr, i, j, x, found.value);
      }
    }
  }

  /** A call stamps the named token, and only while unrevoked and owned by the account with
      the caller's narrowed id; no other token changes. */
  lemma {:induction false} RevokesExactly(db: Db, caller: Claims, pat: PatId, now: Time, p: PatId)
    requires Consistent(db) && p in db.pats
    ensures var r := RevokeAs(db, caller, pat, now);
      && p in r.db.pats
      && (r.db.pats[p] != db.pats[p] <==>
        && p == pat && db.pats[p].revokedAt.None?
        && db.Users()[db.pats[p].userId].appId == Narrow(caller.userId))
      && (r.db.pats[p] != db.pats[p] ==> r.answer == Revoked && r.db.pats[p] == db.pats[p].(revokedAt := Some(now)))
  {
    CallerActsFor(db, caller, db.pats[p].userId);
    hide Narrow, CallerAccount, A.Valid;
  }

  /** What the caller is told, of any token id, known or not. */
  lemma {:induction false} RevocationAnswers(db: Db, caller: Claims, pat: PatId, now: Time)
    requires Consistent(db)
    ensures var r := RevokeAs(db, caller, pat, now);
      var known := exists u :: u in db.Users() && db.Users()[u].appId == Narrow(caller.userId);
      var owned := && pat in db.pats && db.pats[pat].revokedAt.None?
                   && db.Users()[db.pats[pat].userId].appId == Narrow(caller.userId);
      && (r.answer == Unauthenticated <==> !known)
      && (r.answer == Revoked <==> owned)
      && (r.answer == NotFound <==> known && !owned)
      && (r.answer != Revoked ==> r.db == db)
  {
    assert A.AppIdsUnique(db.Users()) && A.RowsNumbered(db.accounts);
    if pat in db.pats {
      CallerActsFor(db, caller, db.pats[pat].userId);
    }
    hide Narrow, Consistent;
  }

  /** So a JWT minted for x revokes x's tokens only, for as long as its id fits 32 bits;
      past them, the tokens of the account that has the narrowed id, if there is one. */
  lemma {:induction false} MintedTokenRevokes(tr: H.Trace, i: nat, j: nat, x: UserId, pat: PatId, now: Time)
    requires i <= j <= |tr| && x in H.After(tr[..i]).Users() && pat in H.After(tr[..j]).pats
    ensures var claims := ClaimsOf(H.After(tr[..i]).Users()[x]);
      var db := H.After(tr[..j]);
      var owner := db.pats[pat].userId;
      RevokeAs(db, claims, pat, now).answer == Revoked ==>
        && db.Users()[owner].appId == Narrow(claims.userId)
        && (owner == x <==> claims.userId <= INT32_MAX)
  {
    var db := H.After(tr[..j]);
    var claims := ClaimsOf(H.After(tr[..i]).Users()[x]);
    H.RunsConsistent(tr[..j]);
    CallerIsOwner(tr, i, j, x);
    CallerActsFor(db, claims, db.pats[pat].userId);
    NarrowExact(claims.userId);
    H.AppIdPositive(tr[..i], x);
    if db.pats[pat].userId in db.Users() && db.Users()[db.pats[pat].userId].appId == claims.userId {
      H.AppIdsNotReassigned(tr, i, j, x, db.pats[pat].userId);
    }
    hide H.After, Narrow, Consistent, CallerAccount;
  }

  /** The failing case: x's id is y's plus 2^32. The JWT of x revokes any token of y. */
  lemma {:induction false} WideIdRevokesForAnother(db: Db, x: UserId, y: UserId, pat: PatId, now: Time)
    requires Consistent(db) && x in db.Users() && y in db.Users()
    requires db.Users()[x].appId == 0x1_0000_0000 + db.Users()[y].appId && db.Users()[y].appId <= INT32_MAX
    requires pat in db.pats && db.pats[pat].userId == y && db.pats[pat].revokedAt.None?
    ensures var r := RevokeAs(db, ClaimsOf(db.Users()[x]), pat, now);
      r.answer == Revoked && r.db.pats[pat].revokedAt == Some(now)
  {
    assert A.RowsNumbered(db.accounts);
    RevokesExactly(db, ClaimsOf(db.Users()[x]), pat, now, pat);
    hide Consistent;
  }

  /** A token just created introspects as active at once, with the scopes and the expiry
      asked for, while its owner is active. */
  lemma {:induction false} CreatedTokenIntrospects(db: Db, c: Cmd, draws: seq<Option<nat>>, now: Time, later: Time)
    requires Consistent(db) && c.CreatePat? && AddPat(db, c, now).reply.PatRow?
    requires AllDrawn(draws) && c.token == PAT_PREFIX + Encoded(draws)
    requires c.expiresAt.Some? ==> later <= c.expiresAt.value
    ensures var db' := AddPat(db, c, now).db;
      var owner := db.Users()[c.user];
      I.Introspect(db', db', c.token, later) ==
        if owner.active then Verdict(true, owner.appId, owner.email, owner.name, c.scopes, c.expiresAt) else INACTIVE
  {
    var db' := AddPat(db, c, now).db;
    assert LooksLikePat(c.token);
    NewTokenFound(db, c, now);
    hide Consistent, DigestTaken, PatNameChecked;
  }

  lemma {:induction false} NewTokenFound(db: Db, c: Cmd, now: Time)
    requires c.CreatePat? && AddPat(db, c, now).reply.PatRow?
    ensures FindPat(AddPat(db, c, now).db, Sha256(c.token)) == Some(c.pat)
  {
    var db' := AddPat(db, c, now).db;
    assert db'.pats[c.pat].digest == Sha256(c.token);
    assert forall p :: p in db'.pats && p != c.pat ==> p in db.pats && db'.pats[p] == db.pats[p];
    hide PatNameChecked;
  }
}
