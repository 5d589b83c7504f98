# Identity and credentials: a verified model

This project models the part of go-cloud-k8s-auth that decides who somebody is and what
they are given for it: the account table with its login upsert, the store of OAuth state
tokens, sessions and personal access tokens, the login flows that tie them together, and
the administration of users beside them.

Everything exists twice. The **value level** says what each SQL statement, each locked
section and each stretch of a handler does to plain values; runs are sequences of such
steps, and the theorems are about every run. The **class level** has the service's own
shape (stores and handlers that update fields, loops included), and every method is proved
equal to its value-level description.

| file | contents |
|---|---|
| `Accounts.dfy`, `UpsertQuery.dfy`, `UserStore.dfy` | the users table; the login upsert as literal relational algebra; the class with its two indexes |
| `Database.dfy`, `History.dfy` | all tables and statements; runs of statements |
| `Replay.dfy`, `Ownership.dfy`, `Touches.dfy` | what runs guarantee: answers by the event log, who owns an account, invisible usage marks |
| `StateStore.dfy`, `StateRuns.dfy` | the OAuth state store, and its runs |
| `Redirects.dfy`, `AdminEmails.dfy`, `GitHubEmail.dfy` | redirect allowlist, bootstrap administrator list, choice of a GitHub address |
| `Introspection.dfy`, `Pats.dfy` | personal access tokens |
| `AuthFlow.dfy`, `AuthService.dfy`, `Dance.dfy` | the login flows: decisions, handlers, and the machine that interleaves them |
| `Callbacks.dfy`, `Grants.dfy`, `Tokens.dfy`, `SignIns.dfy` | in that machine: what each step of a login answers, whom an interleaved bootstrap grant reaches, when a JWT is overtaken before it is issued, and what a sign-in's cookie is worth later |
| `Admin.dfy`, `AdminService.dfy` | the self-demotion guard under interleaving, and the administration handlers |
| `AuthDatabase.dfy` | the class over all tables |

Inputs stand for what the model does not compute: the clock, fresh ids and random tokens,
the outcome of a code exchange and profile fetch, and which strings `url.Parse` accepts.
SHA-256 is injective and JWT signing and parsing are inverse to each other. One clock
serves the service and the database. Where a theorem needs ids or tokens to be fresh it says
so; in the interleaving machine a start never draws a token drawn before. Each SQL
statement is one atomic step; handlers made of several statements are several steps
wherever interleaving matters.

## Where the code and its comments differ

- The comment on `UpsertByProvider` (`pkg/auth/storage.go:11-13`) ties `ErrEmailInUse` to
  unverified e-mails. The code also refuses a verified login whose identity has one account
  and whose e-mail is held by another. `RefusedLogins` gives the exact condition for both.
- The bootstrap grant is described as for a listed user signing in
  (`pkg/auth/auth_service.go:20-23`, `42-44`), but upsert, active check and grant are separate
  statements and the grant is by id only. `GrantAfterDisabling` is an interleaving that
  makes a disabled, unlisted account an administrator; `GrantReachesOthersExactly` says when
  that happens, and `OnlyGrantsChangeRoles` what a grant can change at all.
- `AddRole` is documented to answer (nil, nil) when the role "was already present"
  (`pkg/auth/storage.go:32-34`). It also does so for NULL roles, which an update without
  roles writes; such an account, listed or not, signs in without admin
  (`RolelessUpdateDefeatsGrant`). `ListedLoginEndsAdmin` is the exact rule.
- The bootstrap list ignores letter case and does not ask for `EmailVerified`
  (`pkg/auth/domain.go:60-63`), while the table compares e-mails exactly. A login without a
  verified e-mail whose address is listed becomes an administrator as soon as no row has
  that very spelling (`UnverifiedNewcomerAdmin`), so also beside the administrator whose
  address it varies (`CaseVariantBecomesAdmin`). `EndsAdminExactly` is the rule for all logins.
- A JWT of the RPC flow speaks for the row its login read or was granted
  (`pkg/auth/auth_service.go:122-131`), not for the account at issue. `TokenAfterDemotion` is
  a demotion it does not see, and `IssuedClaimsExactly` says when it is overtaken.
- `ensureNotSelfDemotion` (`pkg/auth/user_connect_server.go:208-210`) means to keep an
  administrator from locking out everyone. It refuses every self-demotion exactly for
  caller ids that fit 32 bits (`GuardRefusesSelfDemotion`), but never looks at `disabled`:
  the only active administrator can disable itself, keeping the role
  (`SelfDisablingLocksOut`). And it asks the JWT, not the table, whether the caller is an
  administrator, so two administrators can demote each other, interleaved or one after the
  other (`MutualDemotion`). When a single update leaves no holder of the role, or no active
  one, `UpdateLosesLastAdminExactly` says, and for a deletion, which has no guard,
  `DeleteLosesLastAdminExactly`; `SomeAdminRemains` says what suffices over runs, for both
  ways of counting.
- `requireSelfOrAdmin` (`pkg/auth/user_connect_server.go:60-62`) and `currentUserUUID`
  (`pkg/auth/pat_connect_server.go:37-38`) mean the caller's own id, but compare and look up
  its narrowing to 32 bits. Past that range the former refuses a user its own record and
  opens another's (`SelfOrAdminExact`), and the latter acts for whoever has the narrowed id
  (`CallerActsFor`, `WideIdRevokesForAnother`).
- `isAllowedRedirect` (`pkg/auth/browser_handlers.go:70-72`) speaks of path-segment
  boundaries; a listed prefix that stops at "https:", "https:/" or "https://" matches on one
  and admits every host of that scheme. No other kind of prefix lets a redirect leave the
  origins listed (`KeepsOriginsExactly`). Its same-origin paths stay at the page's origin by
  RFC 3986 section 5.2.2 (`SameOriginPathStays`); browsers, which follow the WHATWG URL standard
  and read "/\host" as "//host", leave it exactly when the second
  character is a backslash (`BackslashLeavesOrigin`).
- A token name of blanks passes `PatBusinessService.Create`
  (`pkg/auth/pat_service.go:93-95`) and is refused by the table's CHECK constraint, so it
  ends as a storage error rather than as invalid input: exactly those names do
  (`BlankNameRefusedByTable`).

## Model

| member | source | states |
|---|---|---|
| Accounts.UpsertRule | pkg/auth/storage_postgres.go:50-64 | With a fresh id the login upsert is refused exactly when a row other than its target (identity row, else verified e-mail row) holds the e-mail, then with the e-mail constraint and no row changed; otherwise it writes one row, the target or a new one, with the login's identity and e-mail, keeping what blank fields and the schema say to keep |
| Accounts.RefusedLogins | pkg/auth/storage.go:11-14 | The refusal without the target: a verified login is refused iff its identity has an account and a different account has its e-mail; an unverified one iff an account of another identity has its e-mail |
| Accounts.UpsertKeepsKeys | cmd/goCloudAuthServer/db/migrations/000001_create_auth_schema.up.sql:13-29 | The upsert keeps e-mails, identity pairs and app ids unique, from any table where they are |
| Accounts.UpdateRule | pkg/auth/sql.go:73-82 | An admin update succeeds iff the user exists and nobody else holds the new e-mail, and else says which; it overwrites five columns of that row only, never identity, app id or dates |
| Accounts.CreateRule | pkg/auth/sql.go:67-71 | An admin creation succeeds iff id, e-mail and identity pair are free, and else fails by the first of these keys that is not; the stored columns, with the default role when none is given; the sequence value is spent either way |
| UpsertQuery.LimitOneIsTarget | pkg/auth/sql.go:14-19 | Whatever order the database lists tied rows in, ORDER BY and LIMIT 1 keep the identity row, else the verified e-mail row: the keys make it deterministic |
| UpsertQuery.QueryIsUpsert | pkg/auth/sql.go:13-39 | Every way the literal statement (filter, order, limit, update, insert if none, union all) can end is the keyed lookup's; it can break no constraint but the e-mail key, never `unique_provider`, and a committed run returns exactly one row |
| UpsertQuery.QueryEnds | pkg/auth/sql.go:13-39 | The literal statement always has a way to end, so the refinement is never empty |
| UpsertQuery.RefusedBreaksEmailOnly | pkg/auth/storage_postgres.go:55-58 | When another row holds the e-mail, the written row violates users_email_key and no other constraint, so the mapped error is determined |
| UpsertQuery.QueryProducesUpsert | pkg/auth/sql.go:13-39 | The same refinement as one statement about the rows left and the row returned |
| UserStores.UserStore.UpsertByProvider | pkg/auth/storage_postgres.go:50-64 | The two-index implementation leaves the rows and gives the answer of the literal query, maps the e-mail violation to ErrEmailInUse, and keeps both indexes in agreement with the rows |
| UserStores.UserStore.Insert | pkg/auth/sql.go:30-35 | Index-checked insertion equals the INSERT statement, including the sequence value spent on a refused row |
| UserStores.UserStore.Replace | pkg/auth/sql.go:19-29 | Writing a row over another moves its entries in both indexes |
| UserStores.UserStore.Create | pkg/auth/storage_postgres.go:112-126 | Admin creation through the indexes equals the statement, defaults included |
| UserStores.UserStore.Update | pkg/auth/storage_postgres.go:129-139 | Admin update through the indexes equals the statement |
| UserStores.UserStore.AddRole | pkg/auth/storage_postgres.go:143-155 | The grant equals the statement; no row selected is the (nil, nil) answer |
| UserStores.UserStore.Delete | pkg/auth/sql.go:92-94 | Removal leaves exactly the other rows and both indexes in agreement |
| Database.ExecConsistent | cmd/goCloudAuthServer/db/migrations/000001_create_auth_schema.up.sql:11-53 | Every statement keeps every unique key and every foreign key of the schema |
| Database.ExecKeepsReferences | cmd/goCloudAuthServer/db/migrations/000002_create_sessions.up.sql:3-14 | Every statement keeps sessions, tokens and memberships naming existing users, and groups existing owners |
| Database.ExecKeepsDigests | cmd/goCloudAuthServer/db/migrations/000003_create_personal_access_tokens.up.sql:4-16 | Every statement keeps token digests unique |
| Database.DeleteIsExact | pkg/auth/sql.go:92-94 | A delete finds nobody, or fails and changes nothing iff the user owns a group, or removes that user with precisely its sessions, tokens and memberships and leaves every other row as it was |
| Database.OpenSessionExactly | pkg/auth/session_store.go:56-59 | A session is opened iff its token is not stored and its user exists, else with the error of the first that fails; it adds one row and changes no other, whatever sessions the user has |
| Database.SessionAnswers | pkg/auth/session_store.go:61-75 | GetValid leaves its mark on the row it returns; a revocation counts and stamps the unrevoked row of its token; revoke-all stamps every unrevoked session of the user and leaves all other rows |
| Database.AddPatExactly | pkg/auth/pat_store.go:53-57 | A token is stored iff its name has a non-space and at most 100 characters, its id and digest are free and its user exists, else the first failing constraint is reported; the whole row |
| Database.PatAnswers | pkg/auth/pat_store.go:73-80 | Revoking counts one row iff the token is there, unrevoked and that user's; touching counts one iff it is there, and marks it |
| Database.GroupAnswers | cmd/goCloudAuthServer/db/migrations/000001_create_auth_schema.up.sql:35-53 | A group needs a free id and an existing owner, a membership both its ends; a group goes with its memberships |
| Database.SessionStamps | pkg/auth/session_store.go:61-75 | A revoked session row never changes again; revocation and last-seen stamps are the statement's instant; nothing else of a row changes |
| Database.PatStamps | pkg/auth/pat_store.go:73-80 | A revoked token keeps its instant; only its owner's revoke stamps it; touches set only last_used_at, to the statement's instant |
| History.RunsConsistent | cmd/goCloudAuthServer/db/migrations/000001_create_auth_schema.up.sql:35-53 | After every run of statements all keys and references hold |
| History.AppIdsNotReassigned | cmd/goCloudAuthServer/db/migrations/000001_create_auth_schema.up.sql:15 | Over any run an app id stays with the account that drew it, deletions and refused inserts included |
| Replay.SessionReplay | pkg/auth/session_store.go:56-75 | At every moment of every run GetValid finds a session iff the log holds an issue of that token, with no revocation, revoke-all or owner deletion since, expiring strictly later; and returns what was issued |
| Replay.IntrospectReplay | pkg/auth/pat_service.go:140-186 | Introspect, its two reads at any two moments, is active iff the token starts with "pat_" and the log up to the first holds an unrevoked issue of it with no expiry or one not before now, with the owner active by the log up to the second; scopes and expiry are those issued, identity the owner's; otherwise every field is zero |
| Replay.ExpiresExactly | pkg/auth/pat_service.go:156-158 | A standing token of an active owner stops introspecting exactly when now passes its expiry, and never for that reason without one |
| Replay.TokenTakenReplay | pkg/auth/session_store.go:56-59 | A cookie token is taken iff the log issued it for a user it has not deleted since, revoked or not |
| Replay.OwnerReplay | pkg/auth/sql.go:73-82 | A user is active iff the log created it active (a login answering with an account it did not know) or enabled it, and neither disabled nor deleted it since |
| Replay.PresenceReplay | pkg/auth/sql.go:13-39 | The accounts that exist at any moment are those some statement of the log answered with and none deleted since |
| Replay.StandingPatStored | pkg/auth/pat_store.go:53-60 | A token issued by the log and not ended since is stored, unrevoked, with what was issued |
| Replay.StoredPatStands | pkg/auth/pat_store.go:73-76 | Conversely an unrevoked stored token has such an issue in the log |
| Replay.MintReplay | pkg/auth/browser_handlers.go:327-361 | The silent token mint, its session read and its owner read at any two moments, answers a cookie iff the log up to the first holds a standing session under it, unexpired, and its owner is active by the log up to the second; the claims are that owner's of the second moment |
| Replay.RevocationIsFinal | pkg/auth/browser_handlers.go:364-372 | After a logout no later moment of the run finds that session or mints from it, whenever the owner is read, unless the token itself is issued anew |
| Replay.TokenNamesItsOwner | pkg/auth/auth_service.go:201-217 | A JWT minted for an account resolves at any later moment to that account, exactly while it is active, and never to another one |
| Ownership.LoginOwnership | pkg/auth/sql.go:7-19 | Once an identity has logged in to an account, every later successful login by it returns that account, until the account is deleted or relinked by a successful verified login of an identity that had no account |
| Ownership.IdentityChangesExactlyByRelink | pkg/auth/sql.go:14-29 | In one statement an account's identity pair changes iff it is a verified login, from an identity nobody has, with that account's e-mail |
| Ownership.OwnershipStep | pkg/auth/sql.go:13-39 | An identity keeps its account through a statement iff that neither deletes the account nor is a verified login, from an identity nobody has, with the account's e-mail |
| Touches.TouchesInvisible | pkg/auth/pat_service.go:169-176 | Runs that differ only in where, when and how often token touches happen (after revocation or deletion included) give every other statement, GetValid too, the same answer, and the same tables up to usage times; likewise for session bumps, and for both together |
| Touches.QuietRun | pkg/auth/pat_store.go:162-168 | A run and the same run without its touches, its bumps or both answer all other statements alike |
| Touches.CredentialsAlike | pkg/auth/pat_service.go:140-186 | Such runs introspect every token alike, the two reads at any two moments, and mint alike from every cookie |
| StateStores.StateStore.GenerateWithRedirect | pkg/auth/state_store.go:48-63 | Stores the entry under the drawn token, good for the ttl, and nothing else |
| StateStores.StateStore.ValidateAndConsume | pkg/auth/state_store.go:75-94 | Accepts iff stored, not past expiry (inclusive), same provider; returns the stored redirect; the token is gone whatever the answer |
| StateStores.StateStore.Validate | pkg/auth/state_store.go:68-71 | The same without the redirect |
| StateStores.StateStore.Cleanup | pkg/auth/state_store.go:97-110 | One sweep terminates and removes exactly the expired entries |
| StateRuns.SingleUse | pkg/auth/state_store.go:48-94 | In any interleaving under a monotone clock, a presentation is accepted iff it is the first of its token since that was drawn, by the issuing provider, no later than issue plus ttl; it returns exactly the stored redirect |
| StateRuns.AnyPresentationConsumes | pkg/auth/state_store.go:83-84 | Any presentation, wrong provider or late included, makes all later ones fail |
| StateRuns.SweeperTransparent | pkg/auth/state_store.go:75-110 | Two stores fed the same calls, with sweeps inserted anywhere in either, answer every presentation alike |
| StateRuns.SweepSimulation | pkg/auth/state_store.go:97-110 | The simulation behind it: with and without sweeps the maps differ by expired entries only |
| StateRuns.Conservation | pkg/auth/state_store.go:57-61 | Along every run, tokens drawn = live + consumed + swept + overwritten |
| StateRuns.GeneratedIsLiveConsumedOrSwept | pkg/auth/state_store.go:48-63 | With fresh tokens nothing is overwritten: generated = live + consumed + swept |
| StateRuns.BoundAfterSweep | pkg/auth/state_store.go:97-110 | Just after a sweep at t the live count is at most the number generated in [t - ttl, t] |
| Redirects.AllowedExactly | pkg/auth/browser_handlers.go:73-99 | A URI is allowed iff it starts with one slash and not with two, or is an absolute web URI that some listed prefix starts and that goes on, if at all, after a slash or at '/', '?' or '#' |
| Redirects.LoopAcceptsExactly | pkg/auth/browser_handlers.go:85-98 | The loop with its early exits accepts iff some prefix matches on a boundary |
| Redirects.AllowedKeepsOrigin | pkg/auth/browser_handlers.go:70-72 | Whatever url.Parse accepts, with no prefix that stops before its authority every allowed absolute URI has the scheme and authority (RFC 3986 section 3.2) of a listed one |
| Redirects.SchemeOnlyAdmitsEveryHost | pkg/auth/browser_handlers.go:92-96 | A listed http or https prefix that stops at ":", ":/" or "://" admits every host of its scheme |
| Redirects.KeepsOriginsExactly | pkg/auth/browser_handlers.go:73-99 | With a parser that accepts everything, allowed absolute URIs keep to the origins listed if and only if no listed prefix is of that kind |
| Redirects.SameOriginPathStays | pkg/auth/browser_handlers.go:77-80 | Of the references that start with a slash the test picks exactly those that resolve to the base's scheme and authority for every base (RFC 3986 section 5.2.2) |
| Redirects.AllowedLandsOnListedOrigin | pkg/auth/browser_handlers.go:73-99 | With no prefix that stops before its authority, an allowed redirect followed from any page ends at that page's origin or at a listed one |
| Redirects.BackslashLeavesOrigin | pkg/auth/browser_handlers.go:77-80 | With backslashes read as slashes a same-origin path stays one iff its second character is no backslash |
| Redirects.AbsoluteWebExactly | pkg/auth/browser_handlers.go:81-84 | The absolute half of the check, character by character: url.Parse accepts, the scheme is http or https up to case, then "://" and an authority that names a host |
| Redirects.HostPortExactly | pkg/auth/browser_handlers.go:82 | The host is what follows the last '@' of the authority |
| AdminEmails.ParseAdminEmails | pkg/auth/auth_service.go:32-40 | The loop collects exactly the non-blank comma fields, trimmed and lower-cased |
| Values.LowerExactly | pkg/auth/auth_service.go:35 | Folding takes the 26 capitals to their small letters and leaves all else |
| AdminEmails.SpaceExactly | pkg/auth/auth_service.go:35 | White space is the six ASCII characters of Go's unicode.IsSpace |
| AdminEmails.TrimExactly | pkg/auth/auth_service.go:35 | Trimming cuts the longest runs of white space off both ends and nothing else |
| AdminEmails.SplitYieldsFields | pkg/auth/auth_service.go:34 | Splitting yields exactly the maximal comma-free stretches |
| AdminEmails.ListedExactly | pkg/auth/auth_service.go:29-31 | An e-mail is listed iff some comma field trims and lower-cases to its lower-cased form; the empty e-mail never is |
| AdminEmails.EntriesClean | pkg/auth/auth_service.go:35 | Entries are non-empty, trimmed, lower-case and comma-free |
| AdminEmails.ParseRoundTrip | pkg/auth/auth_service.go:32-40 | Joining the parsed set in any order and parsing again gives the same set |
| GitHubEmail.PickPriority | pkg/auth/oauth_providers.go:166-192 | The chosen address follows the declared priority, and carries the verified flag of the first matching entry |
| GitHubEmail.EqualFoldExactly | pkg/auth/oauth_providers.go:169-174 | Two addresses are equal up to case iff as long and at each position the same character, or one letter capital and small |
| GitHubEmail.VerifiedIsVouched | pkg/auth/oauth_providers.go:169-192 | A choice is verified only if the list holds a verified entry equal up to case |
| GitHubEmail.RelinkNeedsVouching | pkg/auth/oauth_providers.go:118-137 | So a GitHub login takes over another identity's account only when such an entry exists for that account's e-mail |
| GitHubEmail.RelinksExactly | pkg/auth/oauth_providers.go:118-137 | A GitHub login takes an account over from another identity iff the address it chose is that account's, is chosen as verified, and nobody has the GitHub identity; the account then has that identity, and the name and avatar fetched unless blank |
| Pats.Base62Exactly | pkg/auth/pat_service.go:22 | The alphabet: digits, capitals, small letters, in order |
| Pats.ScopeMatchesExactly | pkg/auth/pat_service.go:31 | A scope matches iff it has a colon with a small letter on each side that starts a run of small letters, digits and hyphens up to the end |
| Pats.GeneratePatToken | pkg/auth/pat_service.go:57-69 | Prefix plus one base-62 character per draw; fails iff some draw fails |
| Pats.TokensTellDrawsApart | pkg/auth/pat_service.go:57-69 | Different draws give different tokens, and every token passes the prefix test of introspection |
| Pats.ValidatePatScopes | pkg/auth/pat_service.go:78-88 | Defaults for no scopes; otherwise accepted unchanged iff every one has the form word:word |
| Pats.PatService.Create | pkg/auth/pat_service.go:92-120 | Refuses as invalid, before drawing or storing anything, exactly a name of no or more than 100 characters, negative days or a scope that does not match; else stores only digest and display prefix, the row spelled out to its last column, and returns the full token; ends in the storage error of the CHECK iff the request is acceptable, the token drawn and the name blank |
| Pats.BlankNameRefusedByTable | cmd/goCloudAuthServer/db/migrations/000003_create_personal_access_tokens.up.sql:10 | Of the requests the service accepts the CHECK refuses exactly the blank names |
| Pats.PatService.Introspect | pkg/auth/pat_service.go:140-186 | The method computes the verdict of the two reads and leaves a touch of exactly the token found, only when active |
| Pats.PatService.IntrospectToken | pkg/auth/pat_connect_server.go:55-78 | After any run of statements the response is active iff the log holds a standing issue of the token, in date, with an active owner, and then discloses the issued scopes and expiry and that owner's identity; every other cause gives one identical response (RFC 7662 section 2.2) |
| Pats.CreatedTokenIntrospects | pkg/auth/pat_service.go:178-185 | A token just created introspects as active with the scopes and expiry asked for, while its owner is active |
| Pats.PatService.RevokePersonalAccessToken | pkg/auth/pat_connect_server.go:132-156 | Resolves the caller, then runs the owner-guarded revoke; an unknown caller changes nothing, and not-found covers other owners' tokens |
| Pats.CallerIsOwner | pkg/auth/pat_connect_server.go:39-51 | A JWT minted for an account acts, at any later moment, for that account iff it is still there under that app id and the id fits 32 bits |
| Pats.CallerActsFor | pkg/auth/pat_connect_server.go:39-51 | A call acts for an account iff that account's app id is the caller's as narrowed |
| Pats.MintedTokenRevokes | pkg/auth/pat_connect_server.go:132-156 | At any later moment a JWT revokes tokens only of the account with its narrowed id, which is the account it was minted for iff the id fits 32 bits |
| Pats.WideIdRevokesForAnother | pkg/auth/auth_interceptor.go:68 | An account whose id is another's plus 2^32 revokes the other's tokens |
| Pats.RevokesExactly | pkg/auth/pat_store.go:73-76 | A token changes iff it is the named one, unrevoked, and its owner has the caller's narrowed id; then it is stamped with the instant and nothing else |
| Pats.RevocationAnswers | pkg/auth/pat_connect_server.go:132-156 | Unauthenticated iff nobody has the caller's narrowed id; revoked iff the token is there, unrevoked and that account's; else not found, for unknown ids too |
| AuthDatabases.AuthDatabase.GetByAlternateAppID | pkg/auth/storage_postgres.go:79-88 | Finds the account of an app id, unique when there is one |
| AuthDatabases.AuthDatabase.UpsertByProvider | pkg/auth/storage_postgres.go:50-64 | On the whole database the upsert changes the accounts alone |
| AuthDatabases.AuthDatabase.Delete | pkg/auth/storage_postgres.go:158-169 | Equals the cascading delete; no row affected is an error |
| AuthDatabases.AuthDatabase.CreateSession | pkg/auth/session_store.go:121-133 | Equals the insert: digest key, expiry now + ttl, owner must exist |
| AuthDatabases.AuthDatabase.GetValid | pkg/auth/session_store.go:136-147 | Equals the conditional update, good strictly before expiry |
| AuthDatabases.AuthDatabase.RevokeSession | pkg/auth/session_store.go:150-156 | Stamps an unrevoked session; unknown tokens are no error |
| AuthDatabases.AuthDatabase.RevokeAllForUser | pkg/auth/session_store.go:159-165 | Stamps every unrevoked session of the user and no other row |
| AuthDatabases.AuthDatabase.CreatePat | pkg/auth/pat_store.go:110-118 | Equals the insert with its CHECK, key and foreign key |
| AuthDatabases.AuthDatabase.GetByHash | pkg/auth/pat_store.go:121-132 | Finds the token of a digest whatever its status |
| AuthDatabases.AuthDatabase.RevokePat | pkg/auth/pat_store.go:149-159 | Owner-guarded; no row affected is ErrPatNotFound |
| AuthDatabases.AuthDatabase.TouchLastUsed | pkg/auth/pat_store.go:162-168 | Sets only last_used_at, of an existing token |
| AuthFlow.ProviderFails | pkg/auth/auth_service.go:146-173 | A login stops at the provider, with nothing written, iff the provider is not configured, no profile was fetched or it has no e-mail |
| AuthFlow.KnownLogin | pkg/auth/sql.go:14-29 | A login whose identity has an account, or, when none has, whose e-mail the provider reports verified and an account holds, is admitted to that account with exactly the identity, e-mail, and non-blank name and avatar reported; refused as taken, unchanged, iff another account holds the e-mail; refused as disabled, the row written all the same, iff inactive |
| AuthFlow.NewcomerLogin | pkg/auth/sql.go:30-35 | Any other login opens an active account with role "user" and exactly the columns reported, or is refused as taken, unchanged, iff some account holds the e-mail |
| AuthFlow.AdmitCases | pkg/auth/auth_service.go:171-183 | A configured login with an e-mail is refused as taken iff the upsert is (no row changed), as disabled iff it reached an inactive account (whose row is brought up to date all the same), and else admitted to the target or a new account |
| AuthFlow.AddRoleExactly | pkg/auth/sql.go:86-90 | AddRole changes at most one row and only its roles, raises one role from absent to once, changes no other multiplicity, is idempotent, and leaves NULL roles alone |
| AuthFlow.ListedLoginEndsAdmin | pkg/auth/auth_service.go:45-58 | A successful login with a listed e-mail ends with admin held, in the answer and in the table, iff it opens an account or finds one whose roles are not NULL |
| AuthFlow.EndsAdminExactly | pkg/auth/auth_service.go:146-184 | A login ends as administrator iff no row but its target holds the e-mail and the target is active and holds admin, or is listed with non-NULL roles; or there is no target and the e-mail is listed |
| AuthFlow.UnverifiedNewcomerAdmin | pkg/auth/auth_service.go:45-58 | Without a verified e-mail, an identity that has no account ends as administrator iff the list has its e-mail up to case and no row has it exactly |
| AuthFlow.CaseVariantBecomesAdmin | pkg/auth/sql.go:14-18 | The failing input: another spelling of a listed administrator's address, unverified, opens a second administrator's account |
| AuthFlow.LoginsOnlyGrant | pkg/auth/auth_service.go:20-23 | A login with nothing in between removes no role from anyone, and one that adds a role adds admin, once, to the active listed user who signed in |
| Callbacks.StartExactly | pkg/auth/browser_handlers.go:231-256 | A start with a fresh token goes to the provider iff that is configured and, in the browser, the redirect or "/" is allowed; the stored entry; which refusal otherwise |
| Callbacks.LiveExactly | pkg/auth/state_store.go:48-110 | In every interleaving a state is stored and good at a later time iff a start issued it, no callback has looked it up since and its lifetime is not over, whatever sweeps came in between |
| Callbacks.BrowserBeginsExactly | pkg/auth/browser_handlers.go:261-287 | A browser callback goes on iff there is no provider error, it is the first to look its state up, for the issuing provider and within the lifetime, the redirect its start asked for (or "/") is allowed by the allowlist of the moment, and it has a code; which refusal each other case gets; the state is gone unless the provider reported an error; it carries that redirect |
| Callbacks.RpcBeginsExactly | pkg/auth/auth_service.go:116-121 | The RPC callback goes on iff it is the first to look its state up, for the issuing provider and within the lifetime; the state is gone in any case |
| Callbacks.IssueExactly | pkg/auth/browser_handlers.go:299-306 | The last step: the RPC flow gets the JWT of the row it carries; the browser is signed in iff the account is there by the log and the cookie token drawn is not taken, and else gets the session error |
| Callbacks.BrowserSignInReached | pkg/auth/browser_handlers.go:231-306 | A run from the empty system signs a browser in, where its start asked |
| Grants.OnlyGrantsChangeRoles | pkg/auth/auth_service.go:45-58 | In every interleaving, of all login steps only a grant changes roles: those of the account its callback was admitted to, iff that e-mail was listed and its roles are not NULL and lack admin; it appends admin and changes no other column |
| Grants.GrantReachesOthersExactly | pkg/auth/auth_service.go:175-183 | The granted account is disabled or unlisted iff some statement between admission and grant answered with that account and the last such left it so |
| Grants.GrantAfterDisabling | pkg/auth/auth_service.go:180-183 | The failing interleaving: disabled and given an unlisted e-mail in between, the account ends with admin |
| Grants.GrantAfterDisablingReached | pkg/auth/auth_service.go:116-136 | A run from the empty system reaches that interleaving: start, callback, exchange, update, grant |
| Grants.RowIsLastWritten | pkg/auth/sql.go:13-39 | In every run each row of the users table is the one the last statement about that account answered with |
| Tokens.IssuedClaimsExactly | pkg/auth/auth_service.go:122-135 | The JWT of an RPC callback carries the claims of the row its own exchange or grant answered; when it is issued these are not the claims of an active account iff the last statement since then to answer with that account left it disabled or with other claims, or one deleted it |
| Tokens.TokenAfterDemotion | pkg/auth/auth_service.go:128-131 | The failing interleaving: disabled and demoted just before, the account still gets an administrator's JWT |
| Tokens.TokenAfterDemotionReached | pkg/auth/auth_service.go:116-136 | A run from the empty system reaches it |
| Tokens.MissingWasRemoved | pkg/auth/sql.go:92-94 | In every run an account once answered and now missing was deleted by an action of the run, and not answered with since |
| AuthServices.AuthService.EnsureBootstrapAdmin | pkg/auth/auth_service.go:45-58 | The method equals the bootstrap grant |
| AuthServices.AuthService.AuthenticateOAuthUser | pkg/auth/auth_service.go:146-184 | Exchange failure, missing e-mail, upsert errors and the active check, in the source's order, then the grant |
| AuthServices.AuthService.HandleOAuthStart | pkg/auth/browser_handlers.go:231-256 | Stores a state only for a configured provider and an allowed redirect, with "/" for none |
| AuthServices.AuthService.HandleOAuthCallback | pkg/auth/browser_handlers.go:261-307 | The handler equals the value-level callback: same state, same database, same answer |
| AuthServices.AuthService.HandleCallback | pkg/auth/auth_service.go:116-136 | The same for the RPC flow |
| AuthServices.AuthService.HandleToken | pkg/auth/browser_handlers.go:327-361 | Mints iff the cookie's session is good and its user active, bumping that session only |
| AuthServices.AuthService.HandleLogout | pkg/auth/browser_handlers.go:364-372 | Revokes the cookie's session, and does nothing without a cookie |
| Dance.RunsKeepInv | pkg/auth/browser_handlers.go:231-306 | In every interleaving of both flows, sweeps and other statements: tokens are stored or consumed, never both; each callback and each credential has a consumed state of its own; entries are what their start asked for |
| Dance.RecheckNeverRefuses | pkg/auth/browser_handlers.go:275-279 | Every stored redirect is empty or allowed, so with the allowlist fixed the callback's second check never refuses |
| Dance.StartedByAction | pkg/auth/browser_handlers.go:231-256 | Every state on record was issued by a start of the run that answered with it, with that start's parameters and at its instant |
| Dance.IssuedOnce | pkg/auth/state_store.go:48-63 | No state is issued by two starts |
| Dance.EndsWhereStartAsked | pkg/auth/browser_handlers.go:268-306 | Every credential answers the one start that issued its state, for its provider; the browser is finally sent where that start asked, or to "/" |
| Dance.OneCredentialPerState | pkg/auth/auth_service.go:116-136 | Across both flows credentials map injectively to consumed states, so they never outnumber the states consumed or drawn, whatever fails after consumption |
| Dance.CredentialsForAdmittedAccounts | pkg/auth/auth_service.go:175-183 | Every credential is for the account its callback was admitted to, active at that moment, of an identity of the provider its state was drawn for |
| SignIns.SignInMintsUntilEnded | pkg/auth/browser_handlers.go:299-361 | After a sign-in, in any interleaving, the cookie mints with its session read at one later moment and its owner at another iff it is not empty, no logout, revoke-all or deletion ended the session before the first, its lifetime counted from the sign-in is not over, and the owner is active by the log up to the second; the claims are that owner's |
| Dance.DatabaseIsStatementRun | pkg/auth/auth_service.go:146-184 | However logins interleave, the database is one a plain run of statements leaves, so all run theorems apply and all keys hold |
| Dance.StatesAreStoreRun | pkg/auth/state_store.go:22-27 | Likewise the state store is one its own calls leave under a monotone clock |
| Dance.CallbackIsFourSteps | pkg/auth/browser_handlers.go:261-307 | The machine's four callback steps with nothing in between are the handler, browser or RPC: same database, same store, one answer |
| Admin.SomeAdminRemains | pkg/auth/user_connect_server.go:168-249 | In any run of logins, grants, creations, updates and deletions whose guards and writes interleave, some administrator (counting all holders, or only active ones) always remains if each update's caller is one in the table at its guard and at its write, under a 32-bit id, and does not disable itself where active ones are counted, and each deletion's caller is one and deletes somebody else |
| Admin.GuardExactly | pkg/auth/user_connect_server.go:168-224 | An update is let through iff the caller is an administrator and the request keeps admin, or the target exists and is not the caller's own (narrowed) account holding admin; which refusal it otherwise gets |
| Admin.WriteExactly | pkg/auth/user_service.go:90-105 | Past the guard: invalid input, missing user and taken e-mail are the refusals, with nothing written; success writes the request's columns, empty roles as NULL, and nothing else |
| Admin.ValidInputExactly | pkg/auth/user_service.go:30-41 | Two characters of name and five of e-mail between surrounding white space, and an at sign |
| Admin.WritesWereChecked | pkg/auth/user_connect_server.go:168-224 | In every interleaving whatever an update writes was let through by its own earlier check, by a caller with admin, of that account and with that request |
| Admin.OthersChecksStop | pkg/auth/user_connect_server.go:54-60 | A check or deletion by a caller without admin changes nothing |
| Admin.GuardRefusesSelfDemotion | pkg/auth/user_connect_server.go:211-224 | The guard refuses an administrator's self-demotion iff the caller's id survives the narrowing |
| Admin.NarrowExact | pkg/auth/auth_interceptor.go:68 | The int64 to int32 to int64 path of the caller id gives the one 32-bit number congruent to it, and so is the identity exactly on the 32-bit range |
| Admin.SelfOrAdminExact | pkg/auth/user_connect_server.go:63-69 | The check admits exactly administrators and the user itself, on every record, iff the caller is an administrator or its id fits 32 bits; otherwise it errs on the caller's own record and on that of the narrowed id, and on no other |
| Admin.WriteLosesLastAdmin | pkg/auth/user_service.go:90-105 | A write leaves no holder of admin iff it takes the role from the only one, and no active holder iff it takes the role from the only active one or disables it |
| Admin.UpdateLosesLastAdminExactly | pkg/auth/user_connect_server.go:168-224 | A whole update, guard included, leaves no administrator iff it comes with an admin JWT, is valid and free to write its e-mail, its target is the only administrator, and it either keeps the role and disables (where active ones are counted) or drops the role of an account whose app id is not the caller's as narrowed |
| Admin.SelfDisablingLocksOut | pkg/auth/user_connect_server.go:211-224 | The failing input: the only active administrator disables itself keeping the role; the update succeeds and no active administrator is left |
| Admin.NobodyMintsAdmin | pkg/auth/browser_handlers.go:327-361 | With no active holder of admin no cookie mints an administrator's JWT |
| Admin.DeleteLosesLastAdminExactly | pkg/auth/user_connect_server.go:227-249 | A delete, which has no guard, leaves no administrator, of all holders or of the active ones, iff it removes the only one and that one owns no group |
| Admin.RolelessUpdateDefeatsGrant | pkg/auth/sql.go:86-90 | After an update that names no roles a listed login succeeds and leaves the account without admin |
| Admin.MutualDemotion | pkg/auth/user_connect_server.go:208-224 | Two administrators demoting each other leave nobody, interleaved or one after the other, however administrators are counted: callers must still be administrators when they are checked and when they write |
| AdminServices.UserAdmin.Check | pkg/auth/user_connect_server.go:211-224 | Refuses every caller without admin as such and no other; otherwise the guard that GuardExactly spells out |
| AdminServices.UserAdmin.Update | pkg/auth/user_connect_server.go:168-206 | A caller without admin is refused and nothing changes; otherwise guard, validation, existence, write as GuardExactly and WriteExactly spell out |
| AdminServices.UserAdmin.Create | pkg/auth/user_service.go:56-75 | Refuses non-administrators and invalid input; else the insert, and the created row column by column with the service's defaults |
| AdminServices.UserAdmin.Delete | pkg/auth/user_service.go:108-118 | Existence check, then the cascading delete |
| AdminServices.SecondHandMadeUserRefused | cmd/goCloudAuthServer/db/migrations/000001_create_auth_schema.up.sql:21-29 | Users created by hand have an empty provider id, so a second one under the same provider is refused and nothing changes |

## Left out

- HTTP, Connect and cookie formats, the login page, CORS, metrics, migrations, `main`: plumbing without state.
- Provider fetchers and code exchange: an outcome parameter, a failure or a profile.
- JWT signing and expiry, SHA-256, random bytes, hex and base64: abstracted as stated above; group claims of the JWT (`getGroupIDsAsInts`) are a per-element computation on library bytes.
- `url.Parse`: only its split into scheme, authority and host is modelled; which other strings it rejects is a parameter.
- Other departures of browsers from RFC 3986, such as control characters dropped from a reference, and the path part of resolution.
- Unicode: case folding and trimming are ASCII, and name lengths count characters of that range.
- User agent, IP, metadata listings, paging, counting, proto mappers: field copies and plain reads.
- Storage failures other than constraint violations (lost connections, timeouts) and the 5-second limit on touches.
- PostgreSQL isolation below the statement, local time zones in token expiry days, and overflow of the app id sequence.
