/** BOOTSTRAP_ADMIN_EMAILS: parsing, and who it lists. ASCII only. */
module AdminEmails {
  import opened Values

  predicate Space(c: char) {
    c == ' ' || '\t' <= c <= '\r'
  }

  function TrimLeft(s: string): string {
    if s != "" && Space(s[0]) then TrimLeft(s[1..]) else s
  }

  function TrimRight(s: string): string {
    if s != "" && Space(s[|s| - 1]) then TrimRight(s[..|s| - 1]) else s
  }

  function TrimSpace(s: string): string {
    TrimRight(TrimLeft(s))
  }

  /** White space is the ASCII part of Go's unicode.IsSpace. */
  lemma {:induction false} SpaceExactly(c: char)
    ensures Space(c) <==> c in " \t\n\r" || c as int == 0x0B || c as int == 0x0C
  {
  }

  /** Trimming cuts off the longest runs of white space at both ends and nothing else. */
  lemma {:induction false} TrimExactly(s: string) returns (i: nat, j: nat)
    ensures i <= j <= |s| && TrimSpace(s) == s[i..j]
    ensures forall k :: 0 <= k < i || j <= k < |s| ==> Space(s[k])
    ensures i < j ==> !Space(s[i]) && !Space(s[j - 1])
  {
    i := TrimLeftExactly(s);
    var left := TrimLeft(s);
    var n := TrimRightExactly(left);
    j := i + n;
    assert forall k :: i <= k < |s| ==> s[k] == left[k - i];
  }

  lemma {:induction false} TrimLeftExactly(s: string) returns (i: nat)
    ensures i <= |s| && TrimLeft(s) == s[i..] && (forall k :: 0 <= k < i ==> Space(s[k]))
    ensures i < |s| ==> !Space(s[i])
  {
    if s != "" && Space(s[0]) {
      var n := TrimLeftExactly(s[1..]);
      i := n + 1;
      assert forall k :: 0 < k < i ==> s[k] == s[1..][k - 1];
    } else {
      i := 0;
    }
  }

  lemma {:induction false} TrimRightExactly(s: string) returns (n: nat)
    ensures n <= |s| && TrimRight(s) == s[..n] && (forall k :: n <= k < |s| ==> Space(s[k]))
    ensures n > 0 ==> !Space(s[n - 1])
  {
    if s != "" && Space(s[|s| - 1]) {
      n := TrimRightExactly(s[..|s| - 1]);
    } else {
      n := |s|;
    }
  }

  /** Length of the longest prefix without a comma. */
  function FieldLength(s: string): (n: nat)
    ensures n <= |s|
    ensures forall i :: 0 <= i < n ==> s[i] != ','
    ensures n < |s| ==> s[n] == ','
  {
    if s == "" || s[0] == ',' then 0 else 1 + FieldLength(s[1..])
  }

  /** strings.Split(s, ","): at least one field, possibly empty. */
  function Split(s: string): (fields: seq<string>)
    ensures fields != []
  {
    var n := FieldLength(s);
    if n == |s| then [s] else [s[..n]] + Split(s[n + 1..])
  }

  function Join(entries: seq<string>): string {
    if entries == [] then ""
    else if |entries| == 1 then entries[0]
    else entries[0] + "," + Join(entries[1..])
  }

  function Normal(field: string): string {
    ToLower(TrimSpace(field))
  }

  ghost function ListedBy(fields: seq<string>): set<string> {
    set f | f in fields && Normal(f) != "" :: Normal(f)
  }

  method ParseAdminEmails(raw: string) returns (emails: set<string>)
    ensures emails == ListedBy(Split(raw))
  {
    var fields := Split(raw);
    emails := {};
    for i := 0 to |fields|
      invariant emails == ListedBy(fields[..i])
    {
      assert fields[..i + 1] == fields[..i] + [fields[i]];
      var email := Normal(fields[i]);
      if email != "" {
        emails := emails + {email};
      }
    }
    assert fields[..|fields|] == fields;
  }

  // ---- Fields, without the splitter ----

  predicate CommaFree(s: string) {
    forall k :: 0 <= k < |s| ==> s[k] != ','
  }

  /** f is raw[i..j], a maximal comma-free stretch. */
  predicate FieldAt(raw: string, i: nat, j: nat, f: string) {
    && i <= j <= |raw|
    && raw[i..j] == f
    && CommaFree(f)
    && (i == 0 || raw[i - 1] == ',')
    && (j == |raw| || raw[j] == ',')
  }

  ghost predicate IsField(raw: string, f: string) {
    exists i: nat, j: nat :: FieldAt(raw, i, j, f)
  }

  /** Only one field starts at or before the first comma. */
  lemma {:induction false} FirstField(raw: string, i: nat, j: nat, f: string)
    requires i <= FieldLength(raw)
    ensures FieldAt(raw, i, j, f) <==> i == 0 && j == FieldLength(raw) && f == raw[..j]
  {
    var n := FieldLength(raw);
    if FieldAt(raw, i, j, f) && i == 0 {
      assert forall k :: 0 <= k < j ==> f[k] == raw[k];
    }
  }

  /** The fields after it are those of the rest. */
  lemma {:induction false} LaterField(raw: string, i: nat, j: nat, f: string)
    requires FieldLength(raw) < i <= j
    ensures var n := FieldLength(raw);
      FieldAt(raw, i, j, f) <==> n < |raw| && FieldAt(raw[n + 1..], i - n - 1, j - n - 1, f)
  {
    hide CommaFree;
    var n := FieldLength(raw);
    if j <= |raw| {
      var rest := raw[n + 1..];
      assert rest[i - n - 1..j - n - 1] == raw[i..j];
      assert j < |raw| ==> rest[j - n - 1] == raw[j];
      assert i > n + 1 ==> rest[i - n - 2] == raw[i - 1];
    }
  }

  lemma {:induction false} SplitHead(raw: string, f: string)
    ensures var n := FieldLength(raw);
      f in Split(raw) <==> f == raw[..n] || (n < |raw| && f in Split(raw[n + 1..]))
  {
    var n := FieldLength(raw);
    assert n == |raw| ==> raw[..n] == raw;
  }

  lemma {:induction false} FieldIsSplitOff(raw: string, i: nat, j: nat, f: string)
    requires i <= j && FieldAt(raw, i, j, f)
    ensures f in Split(raw)
    decreases |raw|
  {
    hide Split, FieldAt;
    var n := FieldLength(raw);
    SplitHead(raw, f);
    if i <= n {
      FirstField(raw, i, j, f);
    } else {
      LaterField(raw, i, j, f);
      FieldIsSplitOff(raw[n + 1..], i - n - 1, j - n - 1, f);
    }
  }

  lemma {:induction false} SplitOffIsField(raw: string, f: string) returns (i: nat, j: nat)
    requires f in Split(raw)
    ensures i <= j && FieldAt(raw, i, j, f)
    decreases |raw|
  {
    hide Split, FieldAt;
    var n := FieldLength(raw);
    SplitHead(raw, f);
    if f == raw[..n] {
      FirstField(raw, 0, n, f);
      i, j := 0, n;
    } else {
      i, j := SplitOffIsField(raw[n + 1..], f);
      i, j := n + 1 + i, n + 1 + j;
      LaterField(raw, i, j, f);
    }
  }

  /** Split yields exactly the maximal comma-free stretches. */
  lemma {:induction false} SplitYieldsFields(raw: string, f: string)
    ensures f in Split(raw) <==> IsField(raw, f)
  {
    hide Split;
    if f in Split(raw) {
      var i, j := SplitOffIsField(raw, f);
    }
    if i: nat, j: nat :| FieldAt(raw, i, j, f) {
      FieldIsSplitOff(raw, i, j, f);
    }
  }

  /** An e-mail is listed exactly when some comma field trims and lower-cases to its
      lower-cased form; the empty e-mail never is. */
  lemma {:induction false} ListedExactly(raw: string, email: string)
    ensures ToLower(email) in ListedBy(Split(raw)) <==>
      email != "" && exists f :: IsField(raw, f) && ToLower(TrimSpace(f)) == ToLower(email)
  {
    forall f ensures f in Split(raw) <==> IsField(raw, f) {
      SplitYieldsFields(raw, f);
    }
  }

  // ---- Parsing what was parsed ----

  /** Trimmed, lower-case, comma-free and not empty. */
  predicate Clean(e: string) {
    && e != ""
    && !Space(e[0]) && !Space(e[|e| - 1])
    && forall i :: 0 <= i < |e| ==> e[i] != ',' && Lower(e[i]) == e[i]
  }

  lemma {:induction false} TrimLeftFacts(s: string)
    ensures |TrimLeft(s)| <= |s| && s[|s| - |TrimLeft(s)|..] == TrimLeft(s)
    ensures TrimLeft(s) == "" || !Space(TrimLeft(s)[0])
  {
    if s != "" && Space(s[0]) {
      TrimLeftFacts(s[1..]);
    }
  }

  lemma {:induction false} TrimRightFacts(s: string)
    ensures |TrimRight(s)| <= |s| && s[..|TrimRight(s)|] == TrimRight(s)
    ensures TrimRight(s) == "" || !Space(TrimRight(s)[|TrimRight(s)| - 1])
  {
    if s != "" && Space(s[|s| - 1]) {
      TrimRightFacts(s[..|s| - 1]);
    }
  }

  lemma {:induction false} NormalIsClean(field: string)
    requires CommaFree(field)
    ensures Normal(field) == "" || Clean(Normal(field))
  {
    hide TrimLeft, TrimRight, ToLower;
    var left := TrimLeft(field);
    TrimLeftFacts(field);
    assert forall i :: 0 <= i < |left| ==> left[i] == field[|field| - |left| + i];
    var t := TrimRight(left);
    TrimRightFacts(left);
    assert forall i :: 0 <= i < |t| ==> t[i] == left[i];
  }

  lemma {:induction false} NormalKeepsClean(e: string)
    requires Clean(e)
    ensures Normal(e) == e
  {
  }

  /** Every entry of the result is clean. */
  lemma {:induction false} EntriesClean(raw: string)
    ensures forall e :: e in ListedBy(Split(raw)) ==> Clean(e)
  {
    forall f | f in Split(raw) ensures Normal(f) == "" || Clean(Normal(f)) {
      var i, j := SplitOffIsField(raw, f);
      NormalIsClean(f);
    }
  }

  lemma {:induction false} FieldLengthIs(s: string, n: nat)
    requires n <= |s| && (forall i :: 0 <= i < n ==> s[i] != ',') && (n < |s| ==> s[n] == ',')
    ensures FieldLength(s) == n
  {
  }

  lemma {:induction false} SplitJoined(entries: seq<string>)
    requires entries != [] && forall e :: e in entries ==> Clean(e)
    ensures Split(Join(entries)) == entries
  {
    var e, joined := entries[0], Join(entries);
    assert Clean(e);
    FieldLengthIs(joined, |e|);
    hide Clean, FieldLength;
    if |entries| > 1 {
      SplitJoined(entries[1..]);
      assert joined[..|e|] == e;
      assert joined[|e| + 1..] == Join(entries[1..]);
    }
  }

  /** Joining the parsed set in any order, even with repetitions, and parsing again
      gives the same set. */
  lemma {:induction false} ParseRoundTrip(raw: string, order: seq<string>)
    requires forall e :: e in order <==> e in ListedBy(Split(raw))
    ensures ListedBy(Split(Join(order))) == ListedBy(Split(raw))
  {
    EntriesClean(raw);
    if order == [] {
      assert Split(Join(order)) == [""];
      assert forall e :: e in ListedBy(Split(raw)) ==> e in order;
    } else {
      SplitJoined(order);
      forall e | e in order ensures Normal(e) == e && e != "" {
        NormalKeepsClean(e);
      }
    }
  }
}
