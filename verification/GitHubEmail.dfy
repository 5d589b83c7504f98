/** Which of a GitHub user's addresses a login carries, and whether as verified. */
module GitHubEmail {
  import opened Values
  import opened Accounts
  import opened Database
  import opened Ownership

  datatype Address = Address(email: string, primary: bool, verified: bool)

  /** strings.EqualFold over ASCII. */
  predicate EqualFold(a: string, b: string) {
    ToLower(a) == ToLower(b)
  }

  /** The same letter, once capital and once small. */
  predicate OtherCase(c: char, d: char) {
    || ('A' <= c <= 'Z' && d as int == c as int + 32)
    || ('A' <= d <= 'Z' && c as int == d as int + 32)
  }

  /** Equal up to case: as long, and at each position the same character or letter. */
  lemma {:induction false} EqualFoldExactly(a: string, b: string)
    ensures EqualFold(a, b) <==> |a| == |b| && forall i :: 0 <= i < |a| ==> a[i] == b[i] || OtherCase(a[i], b[i])
  {
    forall c: char, d: char
      ensures Lower(c) == Lower(d) <==> c == d || OtherCase(c, d)
    {
      SameLower(c, d);
    }
    hide Lower, OtherCase;
    assert EqualFold(a, b) ==> forall i :: 0 <= i < |a| ==> Lower(a[i]) == ToLower(a)[i] == Lower(b[i]);
    assert |a| == |b| && (forall i :: 0 <= i < |a| ==> Lower(a[i]) == Lower(b[i])) ==> ToLower(a) == ToLower(b);
  }

  lemma {:induction false} SameLower(c: char, d: char)
    ensures Lower(c) == Lower(d) <==> c == d || OtherCase(c, d)
  {
  }

  /** The first index, if any, whose address satisfies f. */
  function First(emails: seq<Address>, f: Address -> bool): (i: Option<nat>)
    ensures i.Some? ==> i.value < |emails| && f(emails[i.value]) && forall k :: 0 <= k < i.value ==> !f(emails[k])
    ensures i.None? ==> forall k :: 0 <= k < |emails| ==> !f(emails[k])
  {
    if emails == [] then None
    else if f(emails[0]) then Some(0)
    else
      match First(emails[1..], f)
      case None => None
      case Some(n) => Some(n + 1)
  }

  datatype Pick = Pick(email: string, verified: bool)

  function PickEmail(public: string, emails: seq<Address>): Pick {
    if public != "" then
      match First(emails, (a: Address) => EqualFold(a.email, public))
      case Some(i) => Pick(public, emails[i].verified)
      case None => Pick(public, false)
    else
      match First(emails, (a: Address) => a.primary)
      case Some(i) => Pick(emails[i].email, emails[i].verified)
      case None =>
        match First(emails, (a: Address) => a.verified)
        case Some(i) => Pick(emails[i].email, true)
        case None => if |emails| > 0 then Pick(emails[0].email, false) else Pick("", false)
  }

  /** Position i is the first whose address equals this one up to case. */
  predicate FirstFold(emails: seq<Address>, i: nat, email: string)
    requires i < |emails|
  {
    EqualFold(emails[i].email, email) && forall k :: 0 <= k < i ==> !EqualFold(emails[k].email, email)
  }

  /** Priority, spelled out over positions: the public address if there is one, else
      the first primary, else the first verified, else the first. */
  lemma {:induction false} PickPriority(public: string, emails: seq<Address>)
    ensures var p := PickEmail(public, emails);
      && (public != "" ==>
        && p.email == public
        && (forall i :: 0 <= i < |emails| && FirstFold(emails, i, public) ==> p.verified == emails[i].verified)
        && ((forall k :: 0 <= k < |emails| ==> !EqualFold(emails[k].email, public)) ==> !p.verified))
      && (public == "" ==>
        forall i :: 0 <= i < |emails| && emails[i].primary && (forall k :: 0 <= k < i ==> !emails[k].primary)
          ==> p == Pick(emails[i].email, emails[i].verified))
      && (public == "" && (forall k :: 0 <= k < |emails| ==> !emails[k].primary) ==>
        && (forall i :: 0 <= i < |emails| && emails[i].verified && (forall k :: 0 <= k < i ==> !emails[k].verified)
              ==> p == Pick(emails[i].email, true))
        && ((forall k :: 0 <= k < |emails| ==> !emails[k].verified) ==>
              p == if emails == [] then Pick("", false) else Pick(emails[0].email, false)))
  {
  }

  /** GitHub vouches for this address: the list holds it, up to case, as verified. */
  ghost predicate Vouched(emails: seq<Address>, email: string) {
    exists i :: 0 <= i < |emails| && emails[i].verified && EqualFold(emails[i].email, email)
  }

  lemma {:induction false} VerifiedIsVouched(public: string, emails: seq<Address>)
    ensures PickEmail(public, emails).verified ==> Vouched(emails, PickEmail(public, emails).email)
  {
  }

  /** The profile a GitHub login presents to the upsert. */
  function GitHubProfile(id: string, public: string, emails: seq<Address>, name: string, avatar: string): Profile {
    var p := PickEmail(public, emails);
    Profile(Identity("github", id), p.email, name, avatar, p.verified)
  }

  /** The verified-link chain: a GitHub login takes an account over from another
      identity only when GitHub's list holds a verified entry for that account's e-mail. */
  lemma {:induction false} RelinkNeedsVouching(
      db: Db, now: Time, x: UserId, newId: UserId,
      id: string, public: string, emails: seq<Address>, name: string, avatar: string)
    requires Consistent(db)
    requires var cmd := Login(GitHubProfile(id, public, emails, name, avatar), newId);
      && x in db.Users() && x in Exec(db, cmd, now).db.Users()
      && Exec(db, cmd, now).db.Users()[x].identity != db.Users()[x].identity
    ensures Vouched(emails, db.Users()[x].email)
  {
    hide Exec;
    IdentityChangesExactlyByRelink(db, Login(GitHubProfile(id, public, emails, name, avatar), newId), now, x);
    VerifiedIsVouched(public, emails);
  }

  /** And exactly when: the address chosen is that account's, it is chosen as verified, and
      nobody has the GitHub identity yet. The account then has it. */
  lemma {:induction false} RelinksExactly(
      db: Db, now: Time, x: UserId, newId: UserId,
      id: string, public: string, emails: seq<Address>, name: string, avatar: string)
    requires Consistent(db)
    requires var cmd := Login(GitHubProfile(id, public, emails, name, avatar), newId);
      x in db.Users() && x in Exec(db, cmd, now).db.Users()
    ensures var row := Exec(db, Login(GitHubProfile(id, public, emails, name, avatar), newId), now).db.Users()[x];
      var p := PickEmail(public, emails);
      && (row.identity != db.Users()[x].identity <==>
        && p.verified && p.email == db.Users()[x].email
        && forall u :: u in db.Users() ==> db.Users()[u].identity != Identity("github", id))
      && (row.identity != db.Users()[x].identity ==>
        && row.identity == Identity("github", id) && row.email == p.email
        && row.name == (if name == "" then db.Users()[x].name else name)
        && row.avatar == if avatar == "" then db.Users()[x].avatar else avatar)
  {
    IdentityChangesExactlyByRelink(db, Login(GitHubProfile(id, public, emails, name, avatar), newId), now, x);
    assert RowsNumbered(db.accounts);
    hide Consistent, PickEmail;
  }
}
