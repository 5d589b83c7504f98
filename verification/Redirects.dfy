/** Where a login may send the browser back to. */
module Redirects {
  import opened Values

  predicate StartsWith(s: string, prefix: string) {
    |prefix| <= |s| && s[..|prefix|] == prefix
  }

  predicate EndsWithSlash(s: string) {
    s != "" && s[|s| - 1] == '/'
  }

  // ---- RFC 3986 section 3: scheme, authority ----

  /** What ends an authority (RFC 3986 section 3.2). */
  predicate EndsAuthority(c: char) {
    c == '/' || c == '?' || c == '#'
  }

  /** Length of the longest prefix without a terminator. */
  function AuthorityLength(s: string): (n: nat)
    ensures n <= |s|
    ensures forall i :: 0 <= i < n ==> !EndsAuthority(s[i])
    ensures n < |s| ==> EndsAuthority(s[n])
  {
    if s == "" || EndsAuthority(s[0]) then 0 else 1 + AuthorityLength(s[1..])
  }

  datatype Origin = Origin(scheme: string, authority: string)

  predicate SchemeChar(c: char) {
    'a' <= c <= 'z' || 'A' <= c <= 'Z' || '0' <= c <= '9' || c == '+' || c == '-' || c == '.'
  }

  /** Length of the run of scheme characters. */
  function SchemeLength(s: string): (n: nat)
    ensures n <= |s|
    ensures forall i :: 0 <= i < n ==> SchemeChar(s[i])
    ensures n < |s| ==> !SchemeChar(s[n])
  {
    if s == "" || !SchemeChar(s[0]) then 0 else 1 + SchemeLength(s[1..])
  }

  /** scheme "://" authority, for a string of that shape. */
  function OriginOf(uri: string): Option<Origin> {
    var n := SchemeLength(uri);
    if n > 0 && StartsWith(uri[n..], "://") then
      var rest := uri[n + 3..];
      Some(Origin(uri[..n], rest[..AuthorityLength(rest)]))
    else None
  }

  /** The host and port of an authority: what follows its last '@'. */
  function HostPort(authority: string): string {
    if '@' in authority then HostPort(authority[1..]) else authority
  }

  // ---- The check ----

  /** The allowlist, and which strings url.Parse accepts at all. */
  datatype Allowlist = Allowlist(prefixes: seq<string>, parses: string -> bool)

  predicate WebScheme(scheme: string) {
    ToLower(scheme) == "http" || ToLower(scheme) == "https"
  }

  predicate AbsoluteWeb(uri: string, parses: string -> bool) {
    && parses(uri)
    && var o := OriginOf(uri);
       && o.Some?
       && WebScheme(o.value.scheme)
       && HostPort(o.value.authority) != ""
  }

  predicate SameOriginPath(uri: string) {
    StartsWith(uri, "/") && !StartsWith(uri, "//")
  }

  /** The prefix matches, and on a segment boundary. */
  predicate OnBoundary(uri: string, prefix: string) {
    && prefix != ""
    && StartsWith(uri, prefix)
    && var rest := uri[|prefix|..];
       EndsWithSlash(prefix) || rest == "" || EndsAuthority(rest[0])
  }

  /** The loop over the prefixes, with its early exit. */
  function AnyPrefix(prefixes: seq<string>, uri: string): bool {
    if prefixes == [] then false
    else if prefixes[0] == "" then AnyPrefix(prefixes[1..], uri)
    else if !StartsWith(uri, prefixes[0]) then AnyPrefix(prefixes[1..], uri)
    else
      var rest := uri[|prefixes[0]|..];
      if EndsWithSlash(prefixes[0]) || rest == "" || rest[0] == '/' || rest[0] == '?' || rest[0] == '#' then true
      else AnyPrefix(prefixes[1..], uri)
  }

  function Allowed(allow: Allowlist, uri: string): bool {
    if uri == "" then false
    else if SameOriginPath(uri) then true
    else if !AbsoluteWeb(uri, allow.parses) then false
    else AnyPrefix(allow.prefixes, uri)
  }

  lemma {:induction false} LoopAcceptsExactly(prefixes: seq<string>, uri: string)
    ensures AnyPrefix(prefixes, uri) <==> exists p :: p in prefixes && OnBoundary(uri, p)
  {
    if prefixes != [] {
      LoopAcceptsExactly(prefixes[1..], uri);
      assert forall p :: p in prefixes <==> p == prefixes[0] || p in prefixes[1..];
      assert AnyPrefix(prefixes, uri) <==> OnBoundary(uri, prefixes[0]) || AnyPrefix(prefixes[1..], uri);
    }
  }

  /** uri goes on from p at the end of one of its segments. */
  predicate GoesOn(uri: string, p: string) {
    && 0 < |p| && p <= uri
    && (p[|p| - 1] == '/' || uri == p || uri[|p|] == '/' || uri[|p|] == '?' || uri[|p|] == '#')
  }

  /** The whole check, without its loop and its order. */
  lemma {:induction false} AllowedExactly(allow: Allowlist, uri: string)
    ensures Allowed(allow, uri) <==>
      || ("/" <= uri && !("//" <= uri))
      || (AbsoluteWeb(uri, allow.parses) && exists p :: p in allow.prefixes && GoesOn(uri, p))
  {
    LoopAcceptsExactly(allow.prefixes, uri);
    forall p
      ensures OnBoundary(uri, p) <==> GoesOn(uri, p)
    {
      if p <= uri && p != uri {
        assert uri[|p|..][0] == uri[|p|];
      }
    }
    hide AbsoluteWeb;
  }

  /** The host and port are what follows the last '@', or everything. */
  lemma {:induction false} HostPortExactly(a: string)
    ensures var h := HostPort(a);
      && |h| <= |a| && a[|a| - |h|..] == h && (forall k :: 0 <= k < |h| ==> h[k] != '@')
      && (h == a || a[|a| - |h| - 1] == '@')
  {
    if '@' in a {
      HostPortExactly(a[1..]);
    }
  }

  lemma {:induction false} SchemeLengthIs(s: string, n: nat)
    requires n < |s| && (forall i :: 0 <= i < n ==> SchemeChar(s[i])) && !SchemeChar(s[n])
    ensures SchemeLength(s) == n
  {
  }

  lemma {:induction false} AuthorityLengthIs(s: string, n: nat)
    requires n <= |s| && (forall i :: 0 <= i < n ==> !EndsAuthority(s[i])) && (n < |s| ==> EndsAuthority(s[n]))
    ensures AuthorityLength(s) == n
  {
  }

  /** n scheme characters and "://". */
  predicate SchemeAt(uri: string, n: nat) {
    && 0 < n && n + 3 <= |uri| && (forall i :: 0 <= i < n ==> SchemeChar(uri[i]))
    && uri[n] == ':' && uri[n + 1] == '/' && uri[n + 2] == '/'
  }

  lemma {:induction false} OriginParts(uri: string)
    ensures OriginOf(uri).Some? <==> SchemeAt(uri, SchemeLength(uri))
    ensures OriginOf(uri).Some? ==>
      var n := SchemeLength(uri);
      OriginOf(uri) == Some(Origin(uri[..n], uri[n + 3..][..AuthorityLength(uri[n + 3..])]))
  {
    hide SchemeLength, AuthorityLength;
    var n := SchemeLength(uri);
    if n + 3 <= |uri| {
      assert uri[n..][..3] == [uri[n], uri[n + 1], uri[n + 2]];
    }
  }

  /** uri is n characters of scheme, http or https in any letter case, then "://" and more
      up to m: a slash, a question mark, a number sign or the end. */
  predicate WebUri(uri: string, n: nat, m: nat) {
    && n + 3 <= m <= |uri| && uri[n..n + 3] == "://"
    && (ToLower(uri[..n]) == "http" || ToLower(uri[..n]) == "https")
    && (forall k :: n + 3 <= k < m ==> uri[k] != '/' && uri[k] != '?' && uri[k] != '#')
    && (m < |uri| ==> uri[m] == '/' || uri[m] == '?' || uri[m] == '#')
  }

  lemma {:induction false} WebSchemeChars(scheme: string)
    requires ToLower(scheme) == "http" || ToLower(scheme) == "https"
    ensures scheme != "" && forall i :: 0 <= i < |scheme| ==> SchemeChar(scheme[i])
  {
    forall i | 0 <= i < |scheme|
      ensures SchemeChar(scheme[i])
    {
      assert Lower(scheme[i]) == ToLower(scheme)[i];
    }
  }

  lemma {:induction false} WebUriHasOrigin(uri: string, n: nat, m: nat)
    requires WebUri(uri, n, m)
    ensures OriginOf(uri) == Some(Origin(uri[..n], uri[n + 3..m])) && WebScheme(uri[..n])
  {
    WebSchemeChars(uri[..n]);
    hide ToLower, SchemeLength, AuthorityLength;
    assert uri[n] == uri[n..n + 3][0] && uri[n + 1] == uri[n..n + 3][1] && uri[n + 2] == uri[n..n + 3][2];
    assert forall i :: 0 <= i < n ==> uri[i] == uri[..n][i];
    SchemeLengthIs(uri, n);
    OriginParts(uri);
    AuthorityLengthIs(uri[n + 3..], m - n - 3);
    assert uri[n + 3..][..m - n - 3] == uri[n + 3..m];
  }

  lemma {:induction false} OriginIsWebUri(uri: string) returns (n: nat, m: nat)
    requires OriginOf(uri).Some? && WebScheme(OriginOf(uri).value.scheme)
    ensures WebUri(uri, n, m) && OriginOf(uri).value.authority == uri[n + 3..m]
  {
    OriginParts(uri);
    hide ToLower, SchemeLength, OriginOf;
    n := SchemeLength(uri);
    m := n + 3 + AuthorityLength(uri[n + 3..]);
    assert uri[n..n + 3] == [uri[n], uri[n + 1], uri[n + 2]];
    assert uri[n + 3..m] == uri[n + 3..][..m - n - 3];
    assert forall k :: n + 3 <= k < |uri| ==> uri[k] == uri[n + 3..][k - n - 3];
  }

  /** The absolute half of the check, spelled out: a web URI that url.Parse accepts, with a
      host. */
  lemma {:induction false} AbsoluteWebExactly(uri: string, parses: string -> bool)
    ensures AbsoluteWeb(uri, parses) <==>
      parses(uri) && exists n: nat, m: nat :: WebUri(uri, n, m) && HostPort(uri[n + 3..m]) != ""
  {
    hide OriginOf, HostPort, ToLower;
    if n: nat, m: nat :| WebUri(uri, n, m) && HostPort(uri[n + 3..m]) != "" {
      WebUriHasOrigin(uri, n, m);
    }
    if OriginOf(uri).Some? && WebScheme(OriginOf(uri).value.scheme) {
      var n, m := OriginIsWebUri(uri);
    }
  }

  // ---- Which origins an allowed URI can have ----

  /** A prefix that stops before any authority: "https:", "https:/" or "https://". */
  predicate SchemeOnly(p: string) {
    var n := SchemeLength(p);
    WebScheme(p[..n]) && (p[n..] == ":" || p[n..] == ":/" || p[n..] == "://")
  }

  /** A match on a boundary of a web URI ends past the scheme, and unless it is only the
      scheme also past the "://". */
  lemma {:induction false} BoundaryPastScheme(uri: string, p: string)
    requires OriginOf(uri).Some? && WebScheme(OriginOf(uri).value.scheme)
    requires OnBoundary(uri, p) && !SchemeOnly(p)
    ensures SchemeLength(uri) + 3 < |p| && SchemeLength(p) == SchemeLength(uri)
  {
    OriginParts(uri);
    hide OriginOf, SchemeLength, WebScheme;
    var n := SchemeLength(uri);
    assert forall i :: 0 <= i < |p| ==> p[i] == uri[..|p|][i] == uri[i];
    assert uri[|p|..] != "" ==> uri[|p|..][0] == uri[|p|];
    assert n < |p|;
    SchemeLengthIs(p, n);
    assert p[..n] == uri[..n];
    SchemeOnlyAt(p, n);
  }

  /** A web scheme and up to three of the characters "://" is only a scheme. */
  lemma {:induction false} SchemeOnlyAt(p: string, n: nat)
    requires SchemeLength(p) == n < |p| && WebScheme(p[..n])
    requires p[n] == ':' && (n + 1 < |p| ==> p[n + 1] == '/') && (n + 2 < |p| ==> p[n + 2] == '/')
    ensures |p| <= n + 3 ==> SchemeOnly(p)
  {
    hide SchemeLength, WebScheme;
    assert |p| == n + 1 ==> p[n..] == ":";
    assert |p| == n + 2 ==> p[n..] == ":/";
    assert |p| == n + 3 ==> p[n..] == "://";
  }

  /** Such a match has the URI's scheme and authority. */
  lemma {:induction false} BoundaryKeepsOrigin(uri: string, p: string)
    requires OriginOf(uri).Some? && WebScheme(OriginOf(uri).value.scheme) && OriginOf(uri).value.authority != ""
    requires OnBoundary(uri, p) && !SchemeOnly(p)
    ensures OriginOf(p) == OriginOf(uri)
  {
    BoundaryPastScheme(uri, p);
    hide WebScheme, SchemeOnly, SchemeLength, AuthorityLength;
    var n := SchemeLength(uri);
    var rest, more := p[n + 3..], uri[n + 3..];
    assert p == uri[..|p|];
    assert p[n..][..3] == uri[n..][..3];
    assert rest == more[..|rest|];
    SameAuthority(more, rest);
    assert p[..n] == uri[..n];
  }

  lemma {:induction false} SameAuthority(more: string, rest: string)
    requires 0 < |rest| <= |more| && rest == more[..|rest|] && AuthorityLength(more) > 0
    requires EndsAuthority(rest[|rest| - 1]) || |rest| == |more| || EndsAuthority(more[|rest|])
    ensures rest[..AuthorityLength(rest)] == more[..AuthorityLength(more)]
  {
    var a := AuthorityLength(more);
    hide AuthorityLength;
    assert a <= |rest|;
    AuthorityLengthIs(rest, a);
  }

  /** Every allowed URI is a same-origin path or has the scheme and authority of some
      listed prefix. */
  ghost predicate KeepsOrigins(allow: Allowlist) {
    forall uri :: Allowed(allow, uri) && !SameOriginPath(uri) ==>
      OriginOf(uri).Some? && exists p :: p in allow.prefixes && OriginOf(p) == OriginOf(uri)
  }

  /** Redirect boundary: whatever url.Parse accepts, allowed URIs keep to the listed
      origins, as long as no listed prefix stops before its authority. */
  lemma {:induction false} AllowedKeepsOrigin(allow: Allowlist)
    requires forall p :: p in allow.prefixes ==> !SchemeOnly(p)
    ensures KeepsOrigins(allow)
  {
    forall uri | Allowed(allow, uri) && !SameOriginPath(uri)
      ensures OriginOf(uri).Some? && exists p :: p in allow.prefixes && OriginOf(p) == OriginOf(uri)
    {
      LoopAcceptsExactly(allow.prefixes, uri);
      var p :| p in allow.prefixes && OnBoundary(uri, p);
      BoundaryKeepsOrigin(uri, p);
    }
  }

  /** A host of n letters. */
  function HostOf(n: nat): (host: string)
    ensures |host| == n && forall i :: 0 <= i < n ==> host[i] == 'a'
  {
    seq(n, _ => 'a')
  }

  function Longest(prefixes: seq<string>): (n: nat)
    ensures forall p :: p in prefixes ==> |p| <= n
  {
    if prefixes == [] then 0
    else
      var n := Longest(prefixes[1..]);
      if |prefixes[0]| > n then |prefixes[0]| else n
  }

  lemma {:induction false} WebUriParts(scheme: string, host: string)
    requires WebScheme(scheme) && (forall i :: 0 <= i < |scheme| ==> SchemeChar(scheme[i]))
    requires host != "" && forall i :: 0 <= i < |host| ==> host[i] == 'a'
    ensures OriginOf(scheme + "://" + host) == Some(Origin(scheme, host))
    ensures HostPort(host) == host
  {
    var uri := scheme + "://" + host;
    assert scheme != "" && uri[|scheme|] == ':';
    hide SchemeLength, AuthorityLength, WebScheme;
    SchemeLengthIs(uri, |scheme|);
    assert uri[..|scheme|] == scheme;
    assert uri[|scheme|..][..3] == "://";
    assert uri[|scheme| + 3..] == host;
    AuthorityLengthIs(host, |host|);
    assert host[..|host|] == host;
    assert StartsWith(uri[|scheme|..], "://");
  }

  /** A listed prefix that stops there admits every host of its scheme. */
  lemma {:induction false} SchemeOnlyAdmitsEveryHost(allow: Allowlist, p: string, host: string)
    requires p in allow.prefixes && SchemeOnly(p)
    requires AbsoluteWeb(p[..SchemeLength(p)] + "://" + host, allow.parses)
    ensures Allowed(allow, p[..SchemeLength(p)] + "://" + host)
  {
    var n := SchemeLength(p);
    var uri := p[..n] + "://" + host;
    assert uri[..|p|] == p by {
      assert p == p[..n] + p[n..];
    }
    assert OnBoundary(uri, p) by {
      assert p[n..] == ":" ==> uri[|p|..][0] == uri[n + 1] == '/';
    }
    LoopAcceptsExactly(allow.prefixes, uri);
  }

  /** The boundary, exactly: if url.Parse accepts everything, allowed URIs keep to the
      listed origins if and only if no listed prefix stops before its authority. */
  lemma {:induction false} KeepsOriginsExactly(prefixes: seq<string>)
    ensures KeepsOrigins(Allowlist(prefixes, _ => true)) <==> forall p :: p in prefixes ==> !SchemeOnly(p)
  {
    var allow := Allowlist(prefixes, _ => true);
    if p :| p in prefixes && SchemeOnly(p) {
      var scheme, host := p[..SchemeLength(p)], HostOf(Longest(prefixes) + 1);
      WebUriParts(scheme, host);
      SchemeOnlyAdmitsEveryHost(allow, p, host);
      var uri := scheme + "://" + host;
      assert !SameOriginPath(uri) by {
        assert uri[0] == p[0];
      }
      forall q | q in prefixes
        ensures OriginOf(q) != OriginOf(uri)
      {
        assert |q| < |host|;
      }
    } else {
      AllowedKeepsOrigin(allow);
    }
  }

  // ---- Where the browser ends up ----

  predicate Letter(c: char) {
    'a' <= c <= 'z' || 'A' <= c <= 'Z'
  }

  /** The reference starts with a scheme (RFC 3986 section 3.1). */
  predicate HasScheme(ref: string) {
    var n := SchemeLength(ref);
    0 < n < |ref| && Letter(ref[0]) && ref[n] == ':'
  }

  /** The authority of "//" authority path; none without the slashes. */
  function AuthorityAfter(rest: string): Option<string> {
    if StartsWith(rest, "//") then Some(rest[2..][..AuthorityLength(rest[2..])]) else None
  }

  datatype Landing = Landing(scheme: string, authority: Option<string>)

  function At(o: Origin): Landing {
    Landing(o.scheme, Some(o.authority))
  }

  /** The scheme and authority of a reference resolved against a base that has both
      (RFC 3986 section 5.2.2): its own scheme, else its own authority, else the base's. */
  function Resolved(base: Origin, ref: string): Landing {
    if HasScheme(ref) then
      var n := SchemeLength(ref);
      Landing(ref[..n], AuthorityAfter(ref[n + 1..]))
    else if AuthorityAfter(ref).Some? then Landing(base.scheme, AuthorityAfter(ref))
    else At(base)
  }

  /** The syntactic test means what its name says: of the references that start with a slash
      it picks those that stay at the origin of every page. */
  lemma {:induction false} SameOriginPathStays(ref: string)
    requires StartsWith(ref, "/")
    ensures SameOriginPath(ref) <==> forall base :: Resolved(base, ref) == At(base)
  {
    assert ref[0] == ref[..1][0] == '/';
    assert !HasScheme(ref);
    if !SameOriginPath(ref) {
      var authority := AuthorityAfter(ref).value;
      assert Resolved(Origin("https", authority + "x"), ref).authority == Some(authority);
    }
  }

  /** An absolute web URI resolves to its own origin, whatever the page. */
  lemma {:induction false} WebUriResolves(base: Origin, uri: string)
    requires OriginOf(uri).Some? && WebScheme(OriginOf(uri).value.scheme)
    ensures Resolved(base, uri) == At(OriginOf(uri).value)
  {
    var n := SchemeLength(uri);
    assert uri[n..][..3] == "://";
    assert uri[n] == uri[n..][..3][0] == ':';
    assert Letter(uri[0]) by {
      assert ToLower(uri[..n])[0] == Lower(uri[0]);
    }
    assert uri[n + 1..][..2] == uri[n..][..3][1..] == "//";
    assert uri[n + 1..][2..] == uri[n + 3..];
  }

  /** The whole boundary: with no prefix that stops before its authority, following an
      allowed redirect from any page ends at that page's origin or at a listed one. */
  lemma {:induction false} AllowedLandsOnListedOrigin(allow: Allowlist, base: Origin, uri: string)
    requires forall p :: p in allow.prefixes ==> !SchemeOnly(p)
    requires Allowed(allow, uri)
    ensures Resolved(base, uri) == At(base) ||
      exists p :: p in allow.prefixes && OriginOf(p).Some? && Resolved(base, uri) == At(OriginOf(p).value)
  {
    if SameOriginPath(uri) {
      SameOriginPathStays(uri);
    } else {
      AllowedKeepsOrigin(allow);
      WebUriResolves(base, uri);
    }
    hide Resolved, SchemeOnly, OriginOf;
  }

  /** Browsers that follow the WHATWG URL standard take a backslash for a slash. */
  function Slashed(ref: string): (r: string)
    ensures |r| == |ref| && forall i :: 0 <= i < |ref| ==> r[i] == if ref[i] == '\\' then '/' else ref[i]
  {
    seq(|ref|, i requires 0 <= i < |ref| => if ref[i] == '\\' then '/' else ref[i])
  }

  /** Read that way a same-origin path stays one exactly when no backslash comes second. */
  lemma {:induction false} BackslashLeavesOrigin(ref: string)
    requires SameOriginPath(ref)
    ensures SameOriginPath(Slashed(ref)) <==> !(|ref| > 1 && ref[1] == '\\')
  {
    assert ref[0] == ref[..1][0] == '/';
    assert Slashed(ref)[..1] == "/";
    assert |ref| > 1 ==> (ref[..2] == "//" <==> ref[1] == '/');
    assert |ref| > 1 ==> (Slashed(ref)[..2] == "//" <==> Slashed(ref)[1] == '/');
  }

  const HOME := "/"

  /** The redirect a request means: "/" when it names none. */
  function OrHome(uri: string): string {
    if uri == "" then HOME else uri
  }

  lemma HomeAllowed(allow: Allowlist)
    ensures Allowed(allow, HOME)
  {
  }
}
