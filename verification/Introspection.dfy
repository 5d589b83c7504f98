/** Verification of a raw personal access token, and the answer modules see. */
module Introspection {
  import opened Values
  import opened Database

  const PAT_PREFIX := "pat_"

  predicate LooksLikePat(token: string) {
    |token| >= |PAT_PREFIX| && token[..|PAT_PREFIX|] == PAT_PREFIX
  }

  /** Go's result and wire records: the fields of an inactive one stay zero. */
  datatype Verdict = Verdict(
    active: bool, userId: int, email: string, name: string, scopes: seq<string>, expiresAt: Option<Time>)

  const INACTIVE := Verdict(false, 0, "", "", [], None)

  /** Good up to and including its expiry instant. */
  predicate InDate(expiresAt: Option<Time>, now: Time) {
    expiresAt.Some? ==> now <= expiresAt.value
  }

  /** Two SELECTs: the token row as of `first`, its owner as of `second`. */
  ghost function Introspect(first: Db, second: Db, token: string, now: Time): Verdict {
    if !LooksLikePat(token) then INACTIVE
    else
      match FindPat(first, Sha256(token))
      case None => INACTIVE
      case Some(p) =>
        var row := first.pats[p];
        if row.revokedAt.Some? || !InDate(row.expiresAt, now) then INACTIVE
        else if row.userId !in second.Users() then INACTIVE
        else
          var owner := second.Users()[row.userId];
          if !owner.active then INACTIVE
          else Verdict(true, owner.appId, owner.email, owner.name, row.scopes, row.expiresAt)
  }
}
