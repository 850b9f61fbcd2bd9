# netaccess: a model of the server and its proofs

netaccess is a client/server system for attribute-based access control. A client sends framed JSON requests; the
server checks a token and a role, works on six PostgreSQL tables and answers. This project models that server in
Dafny and proves what it keeps, refuses and decides, over single requests and over whole runs. `dafny verify
dfyconfig.toml` checks all of it.

## How it is built

**One state machine.** `Server.Step(cfg, db, env, req)` gives the new tables and the response of one request.
`Decide` works out the outcome (a change of the tables, an audit note and an answer), `Schema.Apply` and
`Schema.WriteAudit` carry it out. A request is one atomic step because the server handles requests one at a time on
its event loop. Everything the surroundings contribute is in `Env`: the clock, the bytes of the random generator, and
the order in which the database lists audit rows of one instant (what the database chooses is settled by the query:
`Pep.Chosen`). `Runs.Run` is any sequence of requests from any initial tables that satisfy the schema, with a clock
that never goes back; whole-run results quantify over all runs.

**The program, step by step.** `Pip.PIP` (tables, one method per SQL statement), `Authenticator.Auth`, `Pdp.PDP`,
`Pep.PEP` (gate, handlers, dispatcher), `Endpoints.Listener` and `Endpoints.ApiClient` are classes that update their
fields as the C++ classes do. `Pep.PEP.Handle` is proved to do exactly what `Step` says for every request and every
state of the tables, for some listing of equal instants. `EventLoop.Serve` puts any requests through it, one after
another, and is proved to be a run: so what is proved about runs holds of the imperative server, and by
`Stream.TablesAreRun` of the tables behind a connection.

| file | what it holds |
|---|---|
| Prelude, Json, Protocol | optional values, 32-bit and byte arithmetic, decimal text; JSON values with Qt's defaulting conversions; requests, responses and their codecs |
| Schema | the six tables, CHECK, UNIQUE and REFERENCES as `Integrity`, ON DELETE actions, effects |
| Passwords, Decisions, Listing | key derivation and hex; the access relation and its sentinel encoding; ORDER BY, LIMIT, OFFSET |
| Server, Runs | the state machine and its runs |
| Tokens, Lockout, Logins, Audit, Authority, Readback | whole-run results: token validity, guess bound, when an account is locked, audit log, who can change what, created accounts and read-backs |
| Policies, Updates, Paging, Domain | grants and policy updates, merges of resources and users, pages of lists, the reference decision |
| Access, Administration, Reading, AuditReads | every operation spelled out in columns and literal values: the gate and the decision, the changes with their answers, what lists and queries show |
| Pip, Authenticator, Pdp, Pep | the imperative server |
| Framing, Stream, Schedules, Queueing, Endpoints | frames, a connection under every delivery schedule, which schedules answer everything and how much any schedule answers, the two ends |
| EventLoop | one request after another through the enforcement point |
| Witnesses | concrete states and requests for the surprising cases |

## Where the code and its documents disagree

The model follows the code.

- The documents and comments call the password hash PBKDF2-HMAC-SHA256. The code hashes password and data joined
  (src/server/authenticator.cpp:49-55), which is not HMAC; the loop is section 5.2 of RFC 8018 for that function.
- The seed describes its administrator as able to log in. The stored salt is not hexadecimal text, so no password is
  ever accepted: `Passwords.SeedAcceptsNothing`, and `Passwords.SaltUsable` for the exact condition on a salt.
- The schema comment calls the audit log append-only, but deleting a user clears `actor_id` in its rows:
  `Witnesses.DeletionRewritesAudit`, and `Audit.AuditIsImmutable` for exactly when. Failed logins and denials, which
  docs/protocol.md says are audited, are not (`Audit.AuditIsComplete`).
- docs/protocol.md promises VALIDATION_ERROR for an oversize frame and for invalid JSON. The code never reads past an
  oversize header, and the connection is stuck (`Witnesses.OversizeHeader`, `Framing.OversizeBlocks`); invalid JSON is
  dropped without an answer, and only an object that is no request gets one (`Stream.NoRequestInFrame`).
- docs/protocol.md promises UNSUPPORTED_OP for another protocol version. The code ignores the version
  (`Runs.VersionIgnored`).
- The seed's comment says that specific grants override base policies. Policies only ever permit, and a priority
  decides nothing but the reason text (`Decisions.MorePoliciesMoreAccess`).

## Behaviour worth knowing

- Deleting a user or a resource nulls the reference in its policies, so a grant to one user becomes a grant to all who
  meet its remaining conditions (`Witnesses.DeletionGivesAccess`, `ResourceDeletionGivesAccess`).
  `Policies.UserDeletionWidens` and `ResourceDeletionWidens` give the new relation exactly.
- USER_CREATE inserts twice without a transaction. When the attributes are refused the account stays
  (`Witnesses.RefusedCreationLeavesAccount`), can log in, and every token it gets is invalid
  (`Authority.RefusalIsAtomic`, `OrphansCanLogIn`, `OrphanTokensAreInvalid`).
- An active administrator always remains, except that the last one may deactivate or demote itself with USER_UPDATE
  (`Witnesses.LastAdminCanResign`; exactly when: `Authority.AdminLost`).
- USER_UPDATE answers ok even when its attribute change is refused (`Witnesses.RefusedAttributesAnswerOk`; exactly
  when: `Updates.UserUpdateIsMerge`).
- POLICY_UPDATE with an empty set of fields turns a stored empty department into no condition; no decision changes.
- RESOURCE_LIST pages before it filters, so a plain user's pages may be short and `total` counts hidden rows
  (`Witnesses.HiddenRowsAreCounted`, `Paging.ListTotal`).
- A lock of the account stops logins (`Logins.LockedExactly`) and decisions (`Access.LockStopsDecisions`,
  `LockEmptiesList`), not tokens (`Witnesses.LockedTokenIsValid`, `Tokens.TokenValidity`).
- One readiness signal handles one frame. Of two requests that arrive together only the first is answered, until
  something else arrives (`Schedules.TogetherLeavesOne`); a client that waits for each answer before it sends again
  always gets all its answers (`Schedules.PoliteClientIsAnswered`). Exactly when all are answered, for any schedule:
  `Queueing.AllAnsweredIff`.

## Model

| member | source | states |
|---|---|---|
| Server.StepKeepsIntegrity | src/server/pep.cpp:72-133 | Each of the twenty operations, accepted or refused, keeps every CHECK, UNIQUE and REFERENCES clause of the schema |
| Runs.StatesIntact | src/server/sql/V001__schema.sql:8-94 | Every reachable state of every run satisfies the schema |
| Schema.ApplyKeepsIntegrity | src/server/sql/V001__schema.sql:8-94 | Whatever passed its constraint checks keeps all constraints, cascades included |
| Schema.DeleteUserKeepsIntegrity | src/server/sql/V001__schema.sql:26-85 | CASCADE and SET NULL on deleting a user leave no dangling attribute row, session, owner, subject, creator or actor |
| Schema.DeleteResourceKeepsIntegrity | src/server/sql/V001__schema.sql:73-73 | SET NULL on deleting a resource leaves no policy with a dangling resource |
| Tokens.TokenValidity | src/server/authenticator.cpp:173-204 | In every reachable state a token validates to u exactly when a login issued it to u, it has not expired, no accepted logout of it and no deletion of u came since, and u is active with attributes now; locks play no part |
| Tokens.SessionsFollowHistory | src/server/pip.cpp:296-342 | The unrevoked rows of the sessions table are exactly the logins of the past not ended by a logout or a deletion |
| Tokens.LogoutIsFinal | src/server/pep.cpp:180-184 | After an accepted logout the token validates to nobody at any later moment of any run while its user is not deleted, whatever the generator draws |
| Readback.LoggedOutForGood | src/server/authenticator.cpp:173-204 | A token once logged out never again validates to its user, at any later moment of any run, deletions included |
| Tokens.LoggedOutUnlessIssued | src/server/pep.cpp:180-184 | Deletions or not, it validates to nobody unless a later login draws its hash again |
| Tokens.DeadStaysDead | src/server/sql/V001__schema.sql:37-40 | An expired or revoked session is final: while its user is not deleted its token validates to nobody at any later moment, because UNIQUE(token_hash) refuses a redraw |
| Tokens.NoneWithoutIssue | src/server/pip.cpp:313-342 | A token hash without a live session stays without one until a login draws it |
| Lockout.GuessBound | src/server/authenticator.cpp:109-141 | With a positive lockout time, for any account whatever its count of failures and its lock, in any stretch of any run in which no comparison against it succeeds, whatever else happens: between two of its password comparisons, both included, lie at most max(1, max_failed_attempts) plus one per full lockout elapsed |
| Lockout.LockInvariant | src/server/authenticator.cpp:124-137 | With a positive lockout time, over any stretch without a successful comparison the counter is at least the failures in it and, from the threshold on, the lock ends one full lockout after the latest failure; comparisons are spaced accordingly |
| Lockout.SpacedBound | src/server/authenticator.cpp:109-118 | The arithmetic of the bound: spaced comparisons within a time number at most threshold plus elapsed lockouts |
| Lockout.LockLasts | src/server/pip.cpp:238-246 | A failure leaves the account locked at a later moment exactly when it reached the threshold and the lockout time has not passed |
| Lockout.RefusedLogin | src/server/authenticator.cpp:91-137 | A refused login says inactive or locked exactly when the account is; an unknown name and a wrong password get the same answer, field by field |
| Lockout.OtherEffects | src/server/pip.cpp:222-246 | No other operation moves an existing account's counter or lock, and a new account starts with both clear |
| Logins.LockedExactly | src/server/authenticator.cpp:109-141 | In every run a login with a password under the name of an active account is answered ACCOUNT_LOCKED if and only if the logins under that name answered AUTH_DENIED since the latest one whose password was right have reached max_failed_attempts and the lockout since the latest of them has not passed, or a lock from before the run still stands |
| Logins.CounterCounts | src/server/pip.cpp:222-246 | At every moment of every run the counter is the number of failed logins since the latest successful one, up to 32 bits, and the lock is the one this history gives |
| Logins.LoginStep | src/server/authenticator.cpp:124-141 | By its answer a login moves the account it names and no other: ok and INTERNAL_ERROR clear counter and lock and note the time, AUTH_DENIED counts and from the threshold on locks, anything else leaves it alone |
| Logins.LoginCode | src/server/authenticator.cpp:91-167 | Which code a login under an existing name gets, in the order of the checks |
| Logins.LoginOpens | src/server/authenticator.cpp:146-155 | An accepted login opens one session for the configured hours, writes one audit row, and moves nothing else but the account's counters |
| Logins.LoginTells | src/server/pep.cpp:158-173 | It answers the token and the account with its attributes, those of a plain user where it has none |
| Logins.LogoutStep | src/server/pip.cpp:336-342 | A logout with a valid token stamps that token's session with the time and does nothing else |
| Authority.NonInterference | src/server/pep.cpp:72-133 | Over any run without an accepted change by an administrator, whoever asks for whatever: policies, resources and attributes never change, every account keeps its identity, and a new account has no attributes |
| Access.RoleGate | src/server/pep.cpp:317-329 | Of valid tokens exactly those of administrators pass to the changes and USER_LIST, exactly those of administrators and auditors to POLICY_LIST and AUDIT_QUERY, and all to the rest; whoever is turned away changes nothing |
| Access.AnswerShape | src/server/pep.cpp:28-60 | Every answer of every operation names the operation and id of its request; status and code go together; exactly a refusal has a message; a refusal, a logout, an update, a deletion, a revocation and a check carry no data |
| Access.AllowedMeans | src/server/pdp.cpp:12-93 | The access relation in columns: an active account with attributes and no running lock, and an enabled policy for the action or for all whose every condition subject and resource meet |
| Access.CheckAnswer | src/server/pep.cpp:857-889 | Everything ACCESS_CHECK answers, case by case, with status, code and reason |
| Access.LockStopsDecisions | src/server/pdp.cpp:20-28 | While a lock is running every check of an existing resource is denied with account_locked, whatever the policies |
| Access.LockEmptiesList | src/server/pep.cpp:249-256 | And a plain user's RESOURCE_LIST shows nothing on any page, while its total still counts |
| Authority.KeptAuthorityKeepsAccess | src/server/pdp.cpp:12-93 | Then the administrators are the same, the active ones too, and with the same locks so is the access relation |
| Authority.NoAdminNoChange | src/server/pep.cpp:72-133 | Over any run without a request bearing an administrator's token no account is added either |
| Authority.SameAuthoritySameAccess | src/server/pdp.cpp:12-93 | With those tables unchanged and the same locks the access relation is the same |
| Authority.AdminLost | src/server/pep.cpp:758-851 | A request takes away the last active administrator if and only if it is that administrator's own update deactivating or demoting itself |
| Authority.AdminSurvives | src/server/pep.cpp:816-851 | In every run in which no last administrator resigns there is always an active administrator |
| Authority.RefusalIsAtomic | src/server/pep.cpp:72-133 | A refused request changes no table but for a refused login's counters and the account left when USER_CREATE's attributes are refused |
| Authority.OrphanStaysOrphan | src/server/pip.cpp:143-163 | An account left without attributes never gets any |
| Authority.OrphanTokensAreInvalid | src/server/authenticator.cpp:173-188 | Every later request with a session of such an account answers TOKEN_INVALID and changes nothing, in every run |
| Authority.OrphansCanLogIn | src/server/authenticator.cpp:139-166 | Such an account's own password is nevertheless accepted by AUTH |
| Audit.AuditIsComplete | src/server/pip.cpp:648-663 | Over a run the log grows by exactly one row per accepted login or administrative change and by nothing else |
| Audit.AuditIsImmutable | src/server/sql/V001__schema.sql:82-94 | A row keeps its place and all columns for ever, except that its actor becomes null exactly when that user is deleted |
| Audit.RowTells | src/server/pip.cpp:648-663 | The row of an accepted administrative change names its administrator, the change, the time, and the id the client was told or asked about; a grant, and only a grant, has details |
| Audit.AuditPagesPartition | src/server/pep.cpp:999-1049 | Reading an audit query page by page gives the rows of the table that meet the filter, newest first, each once; the total is their number |
| Audit.AuditPage | src/server/pip.cpp:665-772 | One page of a query; a time bound the database cannot read yields an empty ok answer |
| Audit.HitsAreHits | src/server/pip.cpp:671-686 | The filtered rows are exactly those listed that meet each time bound, the actor and the action as far as given |
| AuditReads.QueryShows | src/server/pep.cpp:1014-1042 | Reading all pages of an audit query shows, newest first and each once, exactly the rows of the log at or after `from`, at or before `to`, by the actor and of the action, as far as the request names them, with their columns key by key; a time that cannot be read is met by no row |
| AuditReads.QueryTotal | src/server/pip.cpp:730-772 | Every page of a query answers ok, changes nothing, and its total is the number of rows asked for |
| AuditReads.FirstPageOfQuery | src/server/pep.cpp:1019-1020 | Without a page number a query is answered its first page |
| Audit.HitsPermute | src/server/pip.cpp:688-710 | The hits do not depend on the order the database lists rows in |
| Readback.PasswordForLife | src/server/pep.cpp:705-752 | An account made by USER_CREATE is accepted under its name, at every later moment of every run, exactly with a password deriving the same key, while active, unlocked and given an unused token hash |
| Readback.CredentialsForLife | src/server/pip.cpp:166-176 | No operation ever changes an account's name or stored password, and no id is reused for another account |
| Readback.GoneForGood | src/server/sql/V001__schema.sql:9-63 | The ids of deleted users, resources and policies are never handed out again |
| Readback.LoginThenMe | src/server/pep.cpp:139-217 | The token of an accepted login answers ME exactly until it expires and only with attributes, and ME repeats every field the login reported |
| Decisions.MorePoliciesMoreAccess | src/server/pdp.cpp:40-92 | Adding, reordering or re-prioritising policies never takes access away |
| Policies.UserDeletionWidens | src/server/pep.cpp:816-851 | After an accepted USER_DELETE everybody else is allowed exactly what was allowed before, plus what the policies bound to that user grant once unbound |
| Policies.UserDeletion | src/server/pip.cpp:178-184 | An accepted USER_DELETE is the deletion with its cascades, of anybody but the caller, and appends to the log |
| Policies.ResourceDeletionWidens | src/server/pep.cpp:410-440 | The same for an accepted RESOURCE_DELETE and requests on any other resource |
| Decisions.NormalisationIsHarmless | src/server/pip.cpp:488-565 | Writing a policy record and reading it back is idempotent and changes no match |
| Decisions.RowRoundTrip | src/server/pip.cpp:575-604 | A stored row survives read-then-write exactly when none of its conditions is stored as an empty text, a negative number or a non-positive id |
| Domain.PdpRefinesDomain | src/server/pdp.cpp:12-93 | For an eligible subject, every order the query gives to ties and every listing of the table, the production decision and the reference agree, both are the access relation, and their reasons coincide when the best policy is unique |
| Domain.QueryDecides | src/server/pip.cpp:613-642 | Over the filtered and sorted rows the best match exists exactly when access is granted, and is of maximal priority |
| Domain.ListingDecides | src/common/netaccess/domain.h:278-314 | Over the whole abstracted table the reference loop's best match exists exactly when access is granted, and is of maximal priority |
| Domain.EvaluatePolicy | src/common/netaccess/domain.h:278-314 | The reference loop returns the verdict of the first matching policy of maximal priority, or denies |
| Domain.MatchAgrees | src/common/netaccess/domain.h:240-267 | Typed optional conditions and sentinel-coded ones select the same subjects, resources and actions |
| Domain.BestUnique | src/common/netaccess/domain.h:286-306 | The best match of a list is unique |
| Domain.ActionCodes | src/common/netaccess/domain.h:56-83 | The action codes the schema admits are exactly the enumeration's, one for each |
| Domain.RoleCodes | src/common/netaccess/domain.h:95-100 | The same for roles |
| Domain.ResourceTypeCodes | src/common/netaccess/domain.h:143-162 | The same for resource types |
| Policies.GrantAccepted | src/server/pep.cpp:895-957 | A grant is accepted exactly when subject and resource exist, the action is known and the name is free; then one row is added and its id returned |
| Policies.GrantAddsExactly | src/server/pep.cpp:934-957 | An accepted grant adds to the access relation exactly its subject, resource and action (all actions for `*`) |
| Policies.RepeatedGrantRefused | src/server/pep.cpp:943-948 | Repeating a grant whose policy keeps its name is refused and changes nothing |
| Policies.GrantNameInjective | src/server/pep.cpp:936-936 | Distinct grants have distinct names |
| Policies.GrantNameFits | src/server/sql/V001__schema.sql:64-64 | Every grant's name meets the length limit for all 64-bit ids |
| Policies.RevokeRemovesExactly | src/server/pep.cpp:963-993 | Revoking removes the one policy; allowed is what the others allow |
| Policies.RevokeUndoesGrant | src/server/pep.cpp:895-993 | Revoking the id a grant returned restores the access relation of all users, resources and actions |
| Policies.PolicyFound | src/server/pep.cpp:570-583 | The linear search over the first 999999 policies finds a policy exactly when it is among them, hence exactly when it exists if there are no more |
| Policies.UpdateIsMerge | src/server/pep.cpp:549-616 | POLICY_UPDATE is accepted exactly when the merged row meets the schema; then the policy becomes it, column by column the value sent or the stored one, and no other row of the tables moves |
| Policies.EmptyUpdate | src/server/pep.cpp:549-616 | An update without fields is accepted and is the identity on the table, up to a stored empty department |
| Updates.CreatedResourceReads | src/server/pep.cpp:317-355 | A created resource reads back to anybody as sent, active and owned by its creator |
| Updates.UpdatedResourceReads | src/server/pep.cpp:361-404 | After an accepted update a read differs from one before in exactly the fields sent, and the answer of a read of any other resource not at all |
| Updates.DeletedResourceIsGone | src/server/pep.cpp:410-440 | A deleted resource is not found at any later moment of any run; reads of the others answer as before |
| Updates.CreatedPolicyListed | src/server/pep.cpp:446-543 | A created policy is among the items of all POLICY_LIST pages with the values sent, absent or meaningless conditions shown as none |
| Updates.CreatedUserListed | src/server/pep.cpp:658-752 | A created account is among the items of all USER_LIST pages with the values sent, with the defaults where none were, and active |
| Updates.UserUpdateIsMerge | src/server/pep.cpp:758-810 | An update touches its target alone, keeps credentials, counters and lock, is refused exactly for an unknown target or an overlong name, and sets role, clearance and department to what was sent or stored, together if admitted and else silently not at all |
| Reading.UpdatedUserReads | src/server/pep.cpp:786-809 | The pages of USER_LIST after an accepted USER_UPDATE are those before, item by item, except that the target shows the name, position and activity sent, and the role, clearance and department sent, these together if admitted and else none |
| Administration.ResourceCreated | src/server/pep.cpp:331-355 | RESOURCE_CREATE: which answer, accepted exactly with a name of 1 to 200 characters and a known type; the row inserted, column by column |
| Administration.ResourceUpdated | src/server/pep.cpp:375-404 | RESOURCE_UPDATE: which answer, and the row merged column by column with what was sent |
| Administration.ResourceDeleted | src/server/pep.cpp:424-440 | RESOURCE_DELETE: accepted for every positive id; each policy keeps all columns, its binding cleared exactly when it was to that resource |
| Administration.PolicyCreated | src/server/pep.cpp:510-543 | POLICY_CREATE: which answer, accepted exactly with a name and an action and a row the table admits; the row inserted, column by column |
| Administration.PolicyChanged | src/server/pep.cpp:563-616 | POLICY_UPDATE: which answer for every id, accepted exactly when the search reaches the policy and the table admits the merged row |
| Administration.PolicyDeleted | src/server/pep.cpp:636-652 | POLICY_DELETE and REVOKE_ACCESS: accepted for every positive id, and nothing but that policy goes |
| Administration.AccountCreated | src/server/pep.cpp:719-752 | USER_CREATE: which answer, accepted exactly with a password and with an account and attributes the tables admit; the account that stays when only its attributes are refused |
| Administration.AccountChanged | src/server/pep.cpp:772-810 | USER_UPDATE: which answer, and the merge of an accepted one |
| Administration.UserDeleted | src/server/pep.cpp:830-851 | USER_DELETE: accepted for every positive id but the caller's own; attributes and sessions go with the account, and resources, policies and audit rows keep all columns but the references to it |
| Administration.Granted | src/server/pep.cpp:909-957 | GRANT_ACCESS: which of the four answers, and the one row of an accepted grant, column by column |
| Paging.PagesPartition | src/server/pep.cpp:223-274 | Reading pages 1 to n of resources, policies or users gives the items of the first n times size rows in order, each once, filtered for a plain user by the read decision |
| Paging.WholeListIsComplete | src/server/pip.cpp:430-462 | The list behind the pages holds exactly the rows of the table, of resources those of the type asked for, each once: users and resources by id, policies by descending priority and id |
| Paging.PolicyIsListed | src/server/pep.cpp:446-490 | Every policy is among the items of all POLICY_LIST pages |
| Paging.UserIsListed | src/server/pep.cpp:658-699 | Every account is among the items of all USER_LIST pages |
| Paging.ShownResources | src/server/pep.cpp:245-267 | An item is shown exactly when its resource is among the rows read and, for a plain user, allowed to be read |
| Paging.ListTotal | src/server/pep.cpp:242-271 | The total is the length of the whole list, whatever the page and the caller's role |
| Paging.ListedIffReadable | src/server/pep.cpp:857-889 | A plain user is shown a resource exactly when ACCESS_CHECK for reading it answers ok |
| Paging.AccessAnswer | src/server/pep.cpp:857-889 | ACCESS_CHECK answers the access relation; past the token check only a lock or a missing policy can be the reason of a denial |
| Reading.ResourcesRead | src/server/pep.cpp:237-267 | All pages of RESOURCE_LIST together are, by id and each once, exactly the resources of the type asked for, for a plain user those that some policy permits it to read while no lock is running, for every other role all, with their columns key by key |
| Reading.PrivilegedSeeAll | src/server/pep.cpp:237-249 | An administrator or auditor reading all pages is shown every resource of the type asked for |
| Reading.AccountsRead | src/server/pep.cpp:672-697 | All pages of USER_LIST together are the accounts by id, each once, with their columns, those without attributes as plain users |
| Reading.PoliciesRead | src/server/pep.cpp:461-488 | All pages of POLICY_LIST together are the policies by descending priority and id, each once, with their columns, conditions that ask nothing as null or empty |
| Reading.TotalCounts | src/server/pip.cpp:464-478 | The total is the number of rows of the table, of resources those of the type asked for |
| Reading.FirstPageByDefault | src/server/pep.cpp:239-240 | Without a page number a list request is answered the first page |
| Reading.MeShows | src/server/pep.cpp:206-216 | ME shows the caller's account key by key |
| Reading.GetShows | src/server/pep.cpp:294-310 | RESOURCE_GET shows the resource key by key, or answers not found |
| Listing.OrderedIsSorted | src/server/pip.cpp:575-580 | ORDER BY: the listing follows rank and id and repeats no id |
| Listing.PagesArePrefix | src/server/pip.cpp:186-196 | LIMIT and OFFSET pages concatenate to a prefix while offsets fit 32 bits |
| Listing.OrderBy | src/server/pip.cpp:186-213 | The selection loop computes the ordered listing |
| Passwords.StoredPasswordMatches | src/server/pep.cpp:728-732 | The stored pair split from `hash:salt` accepts exactly the passwords deriving the same key, the original in particular |
| Passwords.SaltUsable | src/server/authenticator.cpp:120-124 | Some stored hash admits the password with a given salt text if and only if that text is non-empty lower-case hexadecimal of even length |
| Passwords.SeedAcceptsNothing | src/server/sql/V002__seed.sql:9-17 | With the seed's salt no stored hash admits any password |
| Passwords.HashPassword | src/server/authenticator.cpp:20-63 | The loop computes T_1 of section 5.2 of RFC 8018 for the code's own function, in hexadecimal with its salt |
| Passwords.StoredText | src/server/authenticator.cpp:39-62 | What is stored of a password is the exclusive or of a chain of exactly 100000 blocks, the first the hash of password, salt and block number, each next the hash of password and block before, with the salt, in hexadecimal |
| Passwords.XorInto | src/server/authenticator.cpp:56-59 | The inner loop xors one block into the result in place |
| Passwords.HexRoundTrip | src/server/authenticator.cpp:36-62 | Bytes written in hexadecimal read back |
| Passwords.HexTextRoundTrip | src/server/authenticator.cpp:36-36 | Lower-case hexadecimal text of even length survives reading and writing |
| Passwords.SplitPair | src/server/pep.cpp:730-732 | Splitting two colon-free texts joined by a colon gives them back |
| Passwords.TokenHashInjective | src/server/authenticator.cpp:82-85 | Token hashes collide exactly when the hash function does |
| Protocol.RequestRoundTrip | src/common/netaccess/protocol.cpp:182-216 | Decoding an encoded request gives it back |
| Protocol.ResponseRoundTrip | src/common/netaccess/protocol.cpp:222-269 | Decoding an encoded response gives it back |
| Protocol.RequestRejected | src/common/netaccess/protocol.cpp:196-207 | A request is rejected exactly when its operation or id is missing or its operation is unknown |
| Protocol.OpCodec | src/common/netaccess/protocol.cpp:14-88 | A text names an operation exactly when it is that operation's code |
| Protocol.CodeCodec | src/common/netaccess/protocol.cpp:123-176 | The same for result codes |
| Json.IdAsText | src/server/pep.cpp:288-288 | An id is read the same from a number and from its decimal text: as itself, beyond 64 bits as 0 |
| Server.FieldsRead | src/server/pep.cpp:902-904 | How handlers read a field: texts as sent, anything else as the empty text; ids from numbers, anything without a number as 0 |
| Framing.FrameRoundTrip | src/common/netaccess/protocol.cpp:275-323 | A frame followed by anything reads back as its payload exactly for payloads up to 16 MiB |
| Framing.PartialFrameWaits | src/common/netaccess/protocol.cpp:287-310 | No proper prefix of a frame is consumed |
| Framing.OversizeBlocks | src/common/netaccess/protocol.cpp:301-304 | Behind a header above the limit nothing is ever read, whatever arrives |
| Framing.JunkCostsItsFrame | src/common/netaccess/protocol.cpp:312-320 | A payload that is no object consumes exactly its own frame, and the next frame is read whole |
| Framing.ReadFirst | src/common/netaccess/protocol.cpp:287-323 | With frames cut anywhere, a read takes the first as soon as all of it arrived and nothing before |
| Framing.ReadFrame | src/common/netaccess/protocol.cpp:287-323 | Peeking and consuming the device buffer reads one frame as specified |
| Stream.StreamCorrespondence | src/server/listener.cpp:117-174 | For every interleaving of sends, cuts, deliveries, signals and other clients' requests, decoded responses are a prefix, in order, of the server's answers to this connection's requests, each echoing its operation and id |
| Stream.QuiescentIsComplete | src/server/listener.cpp:150-174 | When no byte is left anywhere, every request sent has been answered and every answer decoded |
| Stream.SignalsHandle | src/server/listener.cpp:117-126 | With everything arrived, k signals handle exactly min(k, waiting) requests |
| Stream.ScheduleConsistent | src/client/api_client.cpp:48-66 | At every moment of every schedule the bytes between the ends are exactly the frames not yet handled |
| Stream.NextKeeps | src/client/api_client.cpp:125-150 | Every kind of event keeps that invariant |
| Stream.SendSends | src/client/api_client.cpp:48-66 | Sending appends one frame with the token, data and id given, under the operation the text names, AUTH where it names none, and makes the client busy |
| Stream.AnswersEcho | src/server/pep.cpp:28-60 | Each answer carries its request's operation and id |
| Stream.NoRequestInFrame | src/server/listener.cpp:150-170 | Invalid JSON is dropped unanswered, an object that is no request is answered as malformed, and neither touches the tables |
| Schedules.PoliteClientIsAnswered | src/client/api_client.cpp:48-66 | For a client that sends only when not busy, once all bytes have arrived, each arrival with its signal, every request is answered, every answer decoded and the client not busy |
| Schedules.TogetherLeavesOne | src/server/listener.cpp:117-126 | Of any two requests arriving with one signal the second stays unanswered in the server's buffer, although every byte has arrived and the client is not busy |
| Schedules.AtMostOneOpen | src/client/api_client.cpp:48-66 | Such a client has at most one request open and its busy flag says whether |
| Queueing.AnsweredExactly | src/server/listener.cpp:117-174 | For every schedule the requests answered by a moment are the least, over all earlier moments, of what had wholly arrived by then plus the signals since |
| Queueing.AllAnsweredIff | src/server/listener.cpp:117-126 | All requests sent are answered if and only if from every moment on there were as many signals as requests had not wholly arrived by then |
| Queueing.AllDecodedIff | src/client/api_client.cpp:125-150 | The same for answers decoded at the client |
| Queueing.WholeIsGreatest | src/common/netaccess/protocol.cpp:287-310 | The whole frames in a buffer are the greatest number of leading frames that fit |
| Stream.TablesAreRun | src/server/pep.cpp:72-133 | The tables behind a connection are a state of the run of all logged requests |
| Stream.AnswersAreRun | src/server/listener.cpp:171-173 | The answers on a connection are that run's answers to its own requests, in order |
| EventLoop.Serve | src/server/main.cpp:44-63 | Any requests put through the enforcement point one after another are a run: its last state is what the tables are then, and its answers are those given |
| Runs.VersionIgnored | src/common/netaccess/protocol.cpp:209-215 | A request's protocol version makes no difference to tables or answer |
| Witnesses.LastAdminCanResign | src/server/pep.cpp:786-791 | One administrator deactivates itself, is answered ok, and none is left |
| Witnesses.RefusedAttributesAnswerOk | src/server/pep.cpp:794-809 | An update to an unknown role is answered ok and changes no attributes |
| Witnesses.RefusedCreationLeavesAccount | src/server/pip.cpp:143-163 | A creation with an unknown role is refused and leaves an account without attributes |
| Witnesses.DeletionGivesAccess | src/server/sql/V001__schema.sql:72-72 | In an integral state a user is denied; an administrator's USER_DELETE of another user is answered ok, and the user is allowed |
| Witnesses.ResourceDeletionGivesAccess | src/server/sql/V001__schema.sql:73-73 | In an integral state a user is denied a resource; an administrator's RESOURCE_DELETE of another is answered ok, and the user is allowed |
| Witnesses.DeletionRewritesAudit | src/server/sql/V001__schema.sql:85-85 | In an integral state the row written by a user's login loses its actor when an administrator's USER_DELETE of that user is answered ok |
| Witnesses.OversizeHeader | src/common/netaccess/protocol.cpp:301-304 | Behind one given header of four bytes nothing is ever read |
| Witnesses.LockedTokenIsValid | src/server/authenticator.cpp:173-189 | The token of a locked account is answered ok |
| Witnesses.HiddenRowsAreCounted | src/server/pep.cpp:242-271 | In an integral state a list shows nothing while its total is 1 |
| Pep.PEP.Handle | src/server/pep.cpp:72-133 | The imperative dispatcher with its handlers does exactly what the state machine says, for every request and state and some database order of equal instants, and keeps the schema |
| Pep.PEP.Gate | src/server/pep.cpp:317-329 | The check opening a handler refuses an invalid token and exactly the roles the operation excludes, with the answer of each |
| Pep.PEP.ValidateToken | src/server/pep.cpp:18-26 | A token check gives the caller of the state machine |
| Pep.PEP.HandleAuth | src/server/pep.cpp:139-174 | Login: answer, counters, session and audit row as decided |
| Pep.PEP.HandleLogout | src/server/pep.cpp:180-184 | Ends the session of the token and answers ok either way |
| Pep.PEP.HandleMe | src/server/pep.cpp:190-217 | Reports the caller's account and attributes |
| Pep.PEP.HandleResourceList | src/server/pep.cpp:223-274 | The loop over a page of resources, skipping what a plain user may not read and nothing for any other role |
| Pep.PEP.HandleResourceGet | src/server/pep.cpp:280-311 | Reports a resource, or which of the two refusals applies |
| Pep.PEP.HandleResourceCreate | src/server/pep.cpp:317-355 | The new row, its audit row and id, or the refusal that applies |
| Pep.PEP.HandleResourceUpdate | src/server/pep.cpp:361-404 | The merged row and its audit row, or the refusal that applies |
| Pep.PEP.HandleResourceDelete | src/server/pep.cpp:410-440 | The deletion with its SET NULL and its audit row |
| Pep.PEP.HandlePolicyList | src/server/pep.cpp:446-490 | The loop over a page of policies, sentinels shown as null |
| Pep.PEP.HandlePolicyCreate | src/server/pep.cpp:496-543 | The new policy and its audit row, or the refusal that applies |
| Pep.PEP.HandlePolicyUpdate | src/server/pep.cpp:549-616 | Search, copy, overwrite and store as decided |
| Pep.PEP.FindPolicy | src/server/pep.cpp:570-583 | The linear search returns the record of the id exactly when listed |
| Pep.PEP.MergeHead | src/server/pep.cpp:586-593 | Overwrites the leading fields the request carries |
| Pep.PEP.MergeConditions | src/server/pep.cpp:594-605 | Overwrites the conditions the request carries |
| Pep.PEP.HandlePolicyDelete | src/server/pep.cpp:622-652 | Removes the policy and notes it, for POLICY_DELETE and REVOKE_ACCESS |
| Pep.PEP.HandleUserList | src/server/pep.cpp:658-699 | The loop over a page of users with their attributes |
| Pep.PEP.HandleUserCreate | src/server/pep.cpp:705-752 | Hash, split, two inserts and audit row as decided |
| Pep.PEP.HandleUserUpdate | src/server/pep.cpp:758-810 | The account update, then the attribute update whose result is ignored |
| Pep.PEP.HandleUserDelete | src/server/pep.cpp:816-851 | The deletion with its cascades; never of the caller |
| Pep.PEP.HandleAccessCheck | src/server/pep.cpp:857-889 | Answers the production decision with its reason |
| Pep.PEP.HandleGrantAccess | src/server/pep.cpp:895-957 | The grant policy and its audit row, or the refusal that applies |
| Pep.PEP.HandleAuditQuery | src/server/pep.cpp:999-1049 | A page of hits of some newest-first listing of the table, and the number of hits |
| Authenticator.Auth.Authenticate | src/server/authenticator.cpp:91-167 | Account checks, comparison, counting, locking and session as decided |
| Authenticator.Auth.RecordFailure | src/server/authenticator.cpp:126-133 | One failure counted, and the lock set for the lockout time once the threshold is reached |
| Authenticator.Auth.OpenSession | src/server/authenticator.cpp:139-166 | Counter and lock cleared and the login noted in any case, and a session opened unless the token hash is taken |
| Authenticator.Auth.VerifyToken | src/server/authenticator.cpp:173-189 | The user of a live session if active and with attributes |
| Authenticator.Auth.Logout | src/server/authenticator.cpp:195-204 | Revokes the live session of the token, if any |
| Pdp.PDP.Evaluate | src/server/pdp.cpp:12-93 | Allows exactly the access relation, nothing to an account whose lock is running; an allowance names a matching policy of maximal priority, a denial its reason |
| Pdp.PDP.BestMatch | src/server/pdp.cpp:40-85 | The loop keeps the first matching record of maximal priority |
| Pip.PIP.FindUserByUsername | src/server/pip.cpp:75-100 | The account of a name, if any |
| Pip.PIP.CreateUser | src/server/pip.cpp:129-164 | Two inserts without a transaction: both, the account alone, or neither but a used id |
| Pip.PIP.UpdateUser | src/server/pip.cpp:166-176 | Sets three columns of one account unless the name is too long |
| Pip.PIP.DeleteUserRow | src/server/pip.cpp:178-184 | Deletes with CASCADE and SET NULL |
| Pip.PIP.ListUsers | src/server/pip.cpp:186-213 | One page of accounts by id |
| Pip.PIP.IncrementFailedAttempts | src/server/pip.cpp:222-228 | Adds one to the counter, up to the column's 32 bits |
| Pip.PIP.ResetFailedAttempts | src/server/pip.cpp:230-236 | Clears counter and lock |
| Pip.PIP.LockUser | src/server/pip.cpp:238-246 | Sets the lock from now |
| Pip.PIP.UpdateSubjectAttrs | src/server/pip.cpp:280-290 | Sets the attributes if the CHECKs admit them |
| Pip.PIP.CreateSession | src/server/pip.cpp:296-311 | Inserts unless the token hash is taken or the user unknown; the id is used up either way |
| Pip.PIP.FindSessionByTokenHash | src/server/pip.cpp:313-334 | The live session of a hash |
| Pip.PIP.RevokeSession | src/server/pip.cpp:336-342 | Revokes once; the first time stands |
| Pip.PIP.CreateResource | src/server/pip.cpp:363-381 | Inserts if the constraints admit the row, else only the id is used up |
| Pip.PIP.UpdateResource | src/server/pip.cpp:406-420 | Sets the columns if the CHECKs admit them; the owner stays |
| Pip.PIP.DeleteResourceRow | src/server/pip.cpp:422-428 | Deletes with SET NULL |
| Pip.PIP.ListResources | src/server/pip.cpp:430-462 | One page of resources of a type by id |
| Pip.PIP.CreatePolicy | src/server/pip.cpp:484-512 | Inserts the encoded row if the constraints admit it |
| Pip.PIP.UpdatePolicy | src/server/pip.cpp:543-565 | Sets all columns but the creator if the constraints admit them |
| Pip.PIP.DeletePolicy | src/server/pip.cpp:567-573 | Removes one policy |
| Pip.PIP.ListPolicies | src/server/pip.cpp:575-604 | One page of policies by descending priority and id |
| Pip.PIP.FindEnabledPolicies | src/server/pip.cpp:613-642 | The enabled policies of an action, higher priorities first, ties in any order |
| Pip.PIP.WriteAuditLog | src/server/pip.cpp:648-663 | Appends one row, or only uses up an id when the actor is gone |
| Pip.PIP.QueryAuditLog | src/server/pip.cpp:665-728 | One page of the rows that meet the filter, of some newest-first listing of the table |
| Pip.PIP.CountAuditLog | src/server/pip.cpp:730-772 | Counting row by row gives the number of hits over all pages; none when a time bound cannot be read |
| Endpoints.Listener.OnReadyRead | src/server/listener.cpp:117-126 | One signal: at most one frame read, handled and answered, tables and socket as the server turn says |
| Endpoints.Listener.ProcessRequest | src/server/listener.cpp:150-174 | The same, with the answer to an object that is no request |
| Endpoints.ApiClient.SendRequest | src/client/api_client.cpp:48-66 | Writes one request frame and becomes busy, only when connected |
| Endpoints.ApiClient.ProcessResponse | src/client/api_client.cpp:125-150 | Reads at most one frame; any decoded response ends the waiting and is handed on |
| Endpoints.HandedDetermines | src/client/api_client.cpp:139-149 | What is handed on determines the response up to its version |

## Left out

- TLS, sockets, certificates, the Qt event loop and the SQL engine: byte queues, readiness signals and tables stand for them; a lost connection and database failures other than constraint violations are not modelled, so the branches answering a failed DELETE do not occur.
- JSON text: printing and parsing are a pair of functions, the parser undoing the printer; numbers are integers, so fractional numbers in requests are not modelled.
- SHA-256, UTF-8 and the random generator: parameters; the hash has 32 bytes and nothing else is asked of it.
- Columns created_at and updated_at, which nothing reads, except a session's created_at.
- NULL in text columns that read back as "" (position, description, address, department of a subject) is held as ""; text with U+0000, which PostgreSQL refuses, is not distinguished.
- Two clocks: the server's UTC clock and PostgreSQL's now() are one clock of whole seconds that never goes back; the text form of timestamps is not modelled.
- BIGSERIAL exhaustion and ids beyond 64 bits.
- SessionManager limits (no handler consults them), PAP and the forwarding methods of PDP, and the data layer's unused getPolicy, revokeAllSessions and countActiveSessions.
- Features only the documents have: ttl_days, the idle timeout, rows for failed logins and denials, version negotiation, deny rules, password rules.
- QML pages, translations, configuration files, migrations and build files.
- Listing.PagesArePrefix: stated for offsets that fit 32 bits; beyond them the source's signed product overflows, which C++ leaves undefined, and `Listing.Offset` wraps it.
- Lockout.GuessBound: stated for a positive lockout time, because otherwise no lock ever holds (`Lockout.LockLasts`) and comparisons are unbounded.
