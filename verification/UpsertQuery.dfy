/** The login upsert read literally, clause by clause, as relational algebra over
    the set of rows, and the proof that it is the keyed lookup of Accounts.Upsert. */
module UpsertQuery {
  import opened Values
  import opened Accounts

  type Relation = set<User>

  /** How the statement ends: committed with the rows it returns (a bag: UNION ALL
      keeps duplicates), or rejected by some constraint. */
  datatype Ending = Committed(table: Relation, returned: multiset<User>) | Rejected(constraint: Constraint)

  predicate IdentityMatch(u: User, p: Profile) {
    u.identity == p.identity
  }

  /** WHERE of the `target` expression. */
  predicate Selected(u: User, p: Profile) {
    IdentityMatch(u, p) || (p.emailVerified && u.email == p.email)
  }

  /** `ordered` lists the selected rows, ORDER BY identity match DESC. SQL leaves
      the order of ties open, so many sequences qualify. */
  ghost predicate Listing(rel: Relation, p: Profile, ordered: seq<User>) {
    && (forall u :: u in ordered <==> u in rel && Selected(u, p))
    && (forall i, j :: 0 <= i < j < |ordered| ==> ordered[i] != ordered[j])
    && (forall i, j :: 0 <= i < j < |ordered| && IdentityMatch(ordered[j], p) ==> IdentityMatch(ordered[i], p))
  }

  /** LIMIT 1, projected on id. */
  function TargetIds(ordered: seq<User>): set<UserId> {
    if ordered == [] then {} else {ordered[0].id}
  }

  function Updated(rel: Relation, target: set<UserId>, p: Profile, now: Time): Relation {
    set u | u in rel && u.id in target :: Relinked(u, p, now)
  }

  function Inserted(target: set<UserId>, p: Profile, newId: UserId, appId: int, now: Time): Relation {
    if target == {} then {FirstLogin(p, newId, appId, now)} else {}
  }

  function Untouched(rel: Relation, target: set<UserId>): Relation {
    set u | u in rel && u.id !in target
  }

  /** Two distinct rows agree on the columns of the constraint. */
  ghost predicate Violated(rel: Relation, c: Constraint) {
    exists a, b :: a in rel && b in rel && a != b && SameKey(a, b, c)
  }

  predicate SameKey(a: User, b: User, c: Constraint) {
    match c
    case PrimaryKey => a.id == b.id
    case AppIdKey => a.appId == b.appId
    case EmailKey => a.email == b.email
    case ProviderKey => a.identity == b.identity
    case _ => false
  }

  /** The statement, run with one listing of the selected rows, may end this way. */
  ghost predicate Yields(
      rel: Relation, p: Profile, newId: UserId, appId: int, now: Time, ordered: seq<User>, out: Ending)
  {
    var target := TargetIds(ordered);
    var updated := Updated(rel, target, p, now);
    var inserted := Inserted(target, p, newId, appId, now);
    var after := Untouched(rel, target) + updated + inserted;
    && Listing(rel, p, ordered)
    && match out
       case Rejected(c) => Violated(after, c)
       case Committed(table, returned) =>
         && (forall c :: !Violated(after, c))
         && table == after
         && returned == multiset(updated) + multiset(inserted)
  }

  /** LIMIT 1 is deterministic: whatever the listing, it keeps the keyed target. */
  lemma {:induction false} LimitOneIsTarget(t: Accounts, p: Profile, ordered: seq<User>)
    requires Valid(t)
    requires Listing(t.rows.Values, p, ordered)
    ensures TargetIds(ordered) == (match Target(t.rows, p) case Some(id) => {id} case None => {})
  {
    var own, mail := FindByIdentity(t.rows, p.identity), FindByEmail(t.rows, p.email);
    if own.Some? {
      assert t.rows[own.value] in ordered;
      assert IdentityMatch(ordered[0], p);
      assert ordered[0] in t.rows.Values;
    } else if p.emailVerified && mail.Some? {
      assert t.rows[mail.value] in ordered;
      assert ordered[0] in t.rows.Values;
    } else {
      assert forall u :: u in t.rows.Values ==> !Selected(u, p);
      assert ordered == [] || ordered[0] in ordered;
    }
  }

  /** Row sets of a map update. */
  lemma {:induction false} ValuesAfterWrite(rows: map<UserId, User>, id: UserId, row: User)
    requires forall k :: k in rows ==> rows[k].id == k
    ensures rows[id := row].Values == (set u | u in rows.Values && u.id != id) + {row}
  {
    var rows' := rows[id := row];
    forall u | u in (set u | u in rows.Values && u.id != id) + {row}
      ensures u in rows'.Values
    {
      if u == row {
        assert rows'[id] == u;
      } else {
        assert rows'[u.id] == u;
      }
    }
  }

  /** The set of rows a keyed table stands for breaks no constraint. */
  lemma {:induction false} ValidBreaksNothing(t: Accounts, c: Constraint)
    requires Valid(t)
    ensures !Violated(t.rows.Values, c)
  {
  }

  /** The relation after the statement, in terms of the keyed target. */
  lemma {:induction false} AfterStatement(t: Accounts, p: Profile, newId: UserId, now: Time, ordered: seq<User>)
    requires Valid(t) && newId !in t.rows
    requires Listing(t.rows.Values, p, ordered)
    ensures var target := TargetIds(ordered);
      var updated := Updated(t.rows.Values, target, p, now);
      var inserted := Inserted(target, p, newId, t.nextAppId, now);
      var after := Untouched(t.rows.Values, target) + updated + inserted;
      var row := match Target(t.rows, p)
        case Some(id) => Relinked(t.rows[id], p, now)
        case None => FirstLogin(p, newId, t.nextAppId, now);
      && after == t.rows[row.id := row].Values
      && multiset(updated) + multiset(inserted) == multiset{row}
  {
    LimitOneIsTarget(t, p, ordered);
    var target := TargetIds(ordered);
    match Target(t.rows, p)
    case Some(id) =>
      ValuesAfterWrite(t.rows, id, Relinked(t.rows[id], p, now));
      assert t.rows[id] in t.rows.Values;
      assert Updated(t.rows.Values, target, p, now) == {Relinked(t.rows[id], p, now)};
      assert Untouched(t.rows.Values, target) == set u | u in t.rows.Values && u.id != id;
    case None =>
      ValuesAfterWrite(t.rows, newId, FirstLogin(p, newId, t.nextAppId, now));
      assert Updated(t.rows.Values, target, p, now) == {};
      assert Untouched(t.rows.Values, target) == set u | u in t.rows.Values && u.id != newId;
  }

  /** Query refinement: every way the literal statement can end on the rows of a
      valid table is the one Accounts.Upsert computes. The only constraint it can
      break is the e-mail key, and a committed run returns exactly one row. */
  lemma {:induction false} QueryIsUpsert(
      t: Accounts, p: Profile, newId: UserId, now: Time, ordered: seq<User>, out: Ending)
    requires Valid(t) && newId !in t.rows
    requires Yields(t.rows.Values, p, newId, t.nextAppId, now, ordered, out)
    ensures var w := Upsert(t, p, newId, now);
      match out
      case Rejected(c) => c == EmailKey && w.result == Err(Violates(EmailKey)) && w.table.rows == t.rows
      case Committed(table, returned) =>
        w.result.Ok? && table == w.table.rows.Values && returned == multiset{w.result.value}
  {
    AfterStatement(t, p, newId, now, ordered);
    UpsertRule(t, p, newId, now);
    var w := Upsert(t, p, newId, now);
    var row := match Target(t.rows, p)
      case Some(id) => Relinked(t.rows[id], p, now)
      case None => FirstLogin(p, newId, t.nextAppId, now);
    if EmailHeldByOther(t.rows, p.email, Target(t.rows, p)) {
      RefusedBreaksEmailOnly(t, p, row);
    } else {
      UpsertKeepsKeys(t, p, newId, now);
      forall c ensures !Violated(w.table.rows.Values, c) {
        ValidBreaksNothing(w.table, c);
      }
    }
  }

  /** However the statement may end on the rows of `t`, it leaves these rows and
      returns this row; `returned == None` is a rejection by the e-mail key. */
  ghost predicate QueryProduces(
      t: Accounts, p: Profile, newId: UserId, now: Time, rows: map<UserId, User>, returned: Option<User>)
  {
    forall ordered, out :: Yields(t.rows.Values, p, newId, t.nextAppId, now, ordered, out) ==>
      match out
      case Committed(table, bag) => returned.Some? && rows.Values == table && bag == multiset{returned.value}
      case Rejected(c) => returned.None? && rows == t.rows && c == EmailKey
  }

  lemma {:induction false} QueryProducesUpsert(t: Accounts, p: Profile, newId: UserId, now: Time)
    requires Valid(t) && newId !in t.rows
    ensures var w := Upsert(t, p, newId, now);
      QueryProduces(t, p, newId, now, w.table.rows, if w.result.Ok? then Some(w.result.value) else None)
  {
    hide Yields, Valid, Upsert;
    forall ordered, out | Yields(t.rows.Values, p, newId, t.nextAppId, now, ordered, out) {
      QueryIsUpsert(t, p, newId, now, ordered, out);
    }
  }

  /** When another row holds the e-mail, the written row collides on it and on
      nothing else: not even `unique_provider`. */
  lemma {:induction false} RefusedBreaksEmailOnly(t: Accounts, p: Profile, row: User)
    requires Valid(t) && row.identity == p.identity && row.email == p.email
    requires match Target(t.rows, p)
      case Some(id) => row.id == id && row.appId == t.rows[id].appId
      case None => row.id !in t.rows && row.appId == t.nextAppId
    requires EmailHeldByOther(t.rows, p.email, Target(t.rows, p))
    ensures var after := t.rows[row.id := row].Values;
      Violated(after, EmailKey) && forall c :: Violated(after, c) ==> c == EmailKey
  {
    var after := t.rows[row.id := row];
    var other :| other in t.rows && t.rows[other].email == p.email && Target(t.rows, p) != Some(other);
    assert after[other] in after.Values && after[row.id] in after.Values;
    assert SameKey(after[other], after[row.id], EmailKey);
    forall a, b, c | a in after.Values && b in after.Values && a != b && SameKey(a, b, c)
      ensures c == EmailKey
    {
      assert after[a.id] == a && after[b.id] == b;
    }
  }

  /** The statement always has some way to end. */
  lemma {:induction false} QueryEnds(t: Accounts, p: Profile, newId: UserId, now: Time)
    returns (ordered: seq<User>, out: Ending)
    requires Valid(t) && newId !in t.rows
    ensures Yields(t.rows.Values, p, newId, t.nextAppId, now, ordered, out)
  {
    var own, mail := FindByIdentity(t.rows, p.identity), FindByEmail(t.rows, p.email);
    ordered := if own.Some? then [t.rows[own.value]] else [];
    if p.emailVerified && mail.Some? && mail != own {
      ordered := ordered + [t.rows[mail.value]];
    }
    var target := TargetIds(ordered);
    var updated := Updated(t.rows.Values, target, p, now);
    var inserted := Inserted(target, p, newId, t.nextAppId, now);
    var after := Untouched(t.rows.Values, target) + updated + inserted;
    if c :| Violated(after, c) {
      out := Rejected(c);
    } else {
      out := Committed(after, multiset(updated) + multiset(inserted));
    }
  }
}
