/** Shared vocabulary: optional values, results, the single clock and the
    identifiers of the rows of the go_auth schema. */
module Values {

  datatype Option<+T> = None | Some(value: T)

  datatype Result<+T, +E> = Ok(value: T) | Err(error: E)

  /** Instants and durations, in nanoseconds on one clock. */
  type Time = int

  const SECOND: Time := 1_000_000_000
  const DAY: Time := 24 * 60 * 60 * SECOND

  /** UUID primary keys. Only equality matters. */
  type UserId = nat
  type GroupId = nat
  type PatId = nat

  /** SHA-256 digests, modelled as injective: a digest is its preimage, wrapped. */
  datatype Digest = Sha256(preimage: string)

  lemma {:induction false} SubsetSize<T>(a: set<T>, b: set<T>)
    requires a <= b
    ensures |a| <= |b|
  {
    assert b == a + (b - a);
  }

  /** ASCII case folding. */
  function Lower(c: char): char {
    if 'A' <= c <= 'Z' then c - 'A' + 'a' else c
  }

  function ToLower(s: string): (r: string)
    ensures |r| == |s|
    ensures forall i :: 0 <= i < |s| ==> r[i] == Lower(s[i])
  {
    if s == "" then "" else [Lower(s[0])] + ToLower(s[1..])
  }

  /** Folding takes the 26 capitals to their small letters and leaves all else. */
  lemma {:induction false} LowerExactly(i: nat, c: char)
    requires i < 26
    ensures Lower("ABCDEFGHIJKLMNOPQRSTUVWXYZ"[i]) == "abcdefghijklmnopqrstuvwxyz"[i]
    ensures c !in "ABCDEFGHIJKLMNOPQRSTUVWXYZ" ==> Lower(c) == c
  {
    var capitals := "ABCDEFGHIJKLMNOPQRSTUVWXYZ";
    if 'A' <= c <= 'Z' {
      assert capitals[(c - 'A') as int] == c;
    }
  }

  /** SQL constraints whose violation a statement can report. */
  datatype Constraint = PrimaryKey | AppIdKey | EmailKey | ProviderKey | TokenKey | MembershipKey | NameCheck

  /** The ways a statement can fail, or find nothing to work on. */
  datatype DbError = Violates(constraint: Constraint) | ForeignKey | NoRows
}
