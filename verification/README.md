# Verified model of the EventHub auth backend

A Dafny model of the parts of EventHub whose behaviour is not visible from one function body, with proofs
of what they promise: the refresh-token session protocol under any interleaving, transaction nesting, the
registration race, the validation catalog and its custom rules, the schema search of the API policy, the
token codecs, paging and batch role loading, and the two stacked response writers.

`dafny verify dfyconfig.toml` verifies everything.

## What is modelled

| file | subject |
|---|---|
| `AuthSessions.dfy`, `SessionStatements.dfy` | the `auth_sessions` table: a class with the rows and the unique hash index, one method per SQL statement, and the statements as operations |
| `SessionHistory.dfy` | the atomic specification: committed databases linked by committed operations |
| `SessionProtocol.dfy` | unboundedly many logins, refreshes, revocations and status updates in flight, with stale reads, row locks, commit and rollback, and the invariant every step keeps |
| `SessionRuns.dfy`, `SessionProgress.dfy`, `StaleReadRun.dfy` | the theorems about whole runs, what every reachable state lets a request do, and a run that shows one exception to occur |
| `AuthService.dfy`, `RefreshTokens.dfy`, `Jwt.dfy`, `Base64Url.dfy`, `Decimal.dfy`, `Text.dfy` | Login and Refresh end to end, and the codecs under them |
| `Transactor.dfy` | `WithinTx` as an interpreter of transaction bodies, nested to any depth, each statement routed by the context it names, of any function around it |
| `Registration.dfy` | `Register`, alone and in any number at once |
| `SchemaPolicy.dfy` | the depth-first search over `$ref` and `allOf` |
| `ValidationDocument.dfy`, `CatalogOrder.dfy`, `ValidationCatalog.dfy`, `CustomRules.dfy` | what a document declares, the order it is visited in, compiling it from cyclic schemas, and the custom rules of a request |
| `Paging.dfy`, `UserDirectory.dfy`, `Sorting.dfy` | page arithmetic, the user list, batch roles against per-user roles |
| `Middleware.dfy` | `RequestID` around `Recover`, down to what net/http sends |

In the protocol models an instant is an index into the sequence of committed databases. A plain read may
return any database committed since the transaction began and since its previous read, so both a snapshot
per transaction and a snapshot per statement are covered; an `UPDATE` or `INSERT` looks at the latest
committed rows and waits for the locks of other uncommitted writes.

## Where the code does less than one might expect

- A refresh whose conditional `UPDATE` matches no row answers "invalid token". For a token that stays usable
  the whole time the update misses exactly when some rotation in between consumed it and minted it again
  (`MissWhileUsable`); so every rejection is justified unless its own token was re-minted within its own
  interval (`RejectionIsJustified`), which fresh hashes exclude (`EveryRejectionIsJustified`).
  `SelfRotationMisleads` is such a history.
- A successful refresh found its token wholly usable when it read the user, exactly unless the last
  `UpdateStatus` between its two reads had revoked the session (`SuccessWasUsable`). This takes one snapshot
  per statement (READ COMMITTED): `StaleReadSucceeds` is such a run, in which the session is revoked, and made
  active again before the conditional update. The shipped providers start transactions with no options
  (`internal/app/providers/auth.go:50`), and InnoDB's default, REPEATABLE READ, takes one snapshot per
  transaction. Then both reads see one instant and the token was usable at it (`OneSnapshotWasUsable`).
- `UpdateStatus` sets any status and leaves the version alone. A revoked row stays as it is exactly until
  such an update makes it active (`RevokedStaysRevoked`); `RevokedCanComeBack` goes on to rotate it.
- A statement whose context has no transaction takes effect at once and stays when the call fails
  (`OneStrayIsEnough`); one through the context of a transaction around the call waits there
  (`OuterKeepsItsOwn`). `StraysStay` says for any body what is left: a failing call leaves the data alone exactly
  when the statements that bypassed it cancel out, and `AllOrNothing` holds when there are none.
- A handler that opens with a status net/http refuses (below 100 or above 999) makes both wrappers commit
  before net/http panics. Then no error response is sent and the logged status is not the sent one; `Serve`
  gives this as the exact condition. The recorder of `RequestID` alone is wrong more often;
  `ServeRecorderOnly` gives the exact condition.
- `Register` reads the new user back after its commit. The caller gets an error although both rows are there
  exactly when everything up to the commit succeeds and that read fails (`UserStore.Register`); with others
  in between this is the outcome `NotReadBack`.
- `schemaUsesTopLevelComponent` gives up on a `$ref` when the document has no components. It decides plain
  reachability for every cell and target exactly when components are present or no cell that refers to a
  component leads on to a reference to another one (`PlainExactly`). An inner call may answer false although
  the target is reachable (`InnerCallMayMiss`); `Search` says exactly when.
- base64url decoding accepts text that encoding never prints: line ends, and leftover bits that are not
  zero. `EncodeDecode` says exactly which text survives.
- The sort of `customRuleFields` has one possible answer exactly when no two keys of the operation tie, which
  is when they share the field at two places that are none of the known five (`SortUniqueExactly`,
  `TiesExactly`). The compiler stores no such key, so compiled rules have one sort (`CompiledSortIsUnique`),
  and `validateCustomRules` gives one verdict even where keys tie (`VerdictIsUnique`).

## Model

| member | source | states |
|---|---|---|
| AuthSessions.SessionTable.IndexMeansUnique | migrations/000002_auth_schema.up.sql:73 | a table whose index is consistent has no two sessions with one refresh-token hash |
| AuthSessions.SessionTable.FindByRefreshTokenHash | internal/repository/mysql/sqlc/auth_sessions.sql.go:109-140 | the index lookup finds exactly the session a scan would find, and no other session has the hash |
| AuthSessions.SessionTable.Create | internal/repository/mysql/sqlc/auth_sessions.sql.go:53-107 | inserts exactly when session id and hash are both new, otherwise a duplicate-key error and no change |
| AuthSessions.SessionTable.ConditionalRotate | internal/repository/mysql/sqlc/auth_sessions.sql.go:14-51 | one row exactly when id, old hash, old version, ACTIVE and unexpired all match; then every column of the new row, refresh and last-seen times among them; a duplicate-key error exactly when it would match but the new hash is another session's |
| AuthSessions.SessionTable.RevokeBySessionID | internal/repository/mysql/sqlc/auth_sessions.sql.go:175-194 | one row exactly for an active session, which becomes revoked with its version bumped; an empty reason is stored as null |
| AuthSessions.SessionTable.UpdateLastSeenAt | internal/repository/mysql/sqlc/auth_sessions.sql.go:196-211 | touches the last-seen time of active sessions only; reports one row exactly when the row, or its update time in seconds, changes |
| AuthSessions.SessionTable.UpdateStatus | internal/repository/mysql/sqlc/auth_sessions.sql.go:213-227 | sets any status of an existing session and nothing else, the version included; reports one row exactly when the row, or its update time in seconds, changes |
| SessionStatements.Execute | internal/repository/mysql/auth_session_repository.go:21-125 | the table moves as the history says exactly when the operation's guard holds; a create, rotation or revocation reports one row exactly then, a touch or status update only when something changes besides |
| SessionHistory.HistoryUnique | migrations/000002_auth_schema.up.sql:73 | in every history no two sessions ever share a hash |
| SessionHistory.RowsPersist | internal/repository/mysql/sqlc/auth_sessions.sql.go:14-27 | session rows are never lost, never change owner or issue time, and their version never decreases |
| SessionHistory.RowTellsHistory | internal/repository/mysql/sqlc/auth_sessions.sql.go:14-27 | in every history each column of a row is what the last operation that writes it wrote: last-seen time of the last login, rotation or touch, refresh time of the last rotation, revocation time and reason of the last revocation, and so on |
| SessionHistory.LastOfIsLast | internal/repository/mysql/sqlc/auth_sessions.sql.go:14-27 | the last operation of some kinds on a session is one after which there is none |
| SessionHistory.OneRotationPerVersion | internal/repository/mysql/sqlc/auth_sessions.sql.go:14-27 | at most one committed rotation consumes a (session, version) pair, whatever the tokens and status updates |
| SessionHistory.MissIsJustified | internal/service/auth/refresh_token.go:52-65 | if the guards matched when the session was read and fail at the update, and this token was not re-minted in between, at some instant in between it was unusable |
| SessionHistory.MissWhileUsable | internal/service/auth/refresh_token.go:52-65 | a token that stays usable is missed by its update exactly when a rotation in between consumed it and minted it again |
| SessionHistory.SelfRotationMisleads | internal/service/auth/refresh_token.go:43-65 | a rotation that mints the hash it consumes breaks that justification |
| SessionHistory.SameVersionSameRow | internal/repository/mysql/sqlc/auth_sessions.sql.go:14-27 | between two instants with one version, hash and expiry do not move |
| SessionHistory.SameVersionStatus | internal/repository/mysql/sqlc/auth_sessions.sql.go:213-218 | and the status is what the last status update in between wrote, if there was one |
| SessionHistory.LastStatusIsLast | internal/repository/mysql/sqlc/auth_sessions.sql.go:213-218 | the last status is that of a status update of the session after which there is none |
| SessionHistory.ChainShape | internal/repository/mysql/sqlc/auth_sessions.sql.go:14-27 | minted hashes of a session = consumed hashes plus the one in its row; version = rotations plus revocations |
| SessionHistory.ConsumedIsGone | internal/service/auth/refresh_token.go:43-65 | with fresh hashes a consumed hash never comes back to the table |
| SessionHistory.OneRotationPerToken | internal/service/auth/refresh_token.go:43-65 | with fresh hashes at most one rotation ever consumes a refresh token |
| SessionHistory.OnlyLastIsHeld | internal/service/auth/refresh_token.go:43-65 | with fresh hashes exactly the last element of a chain has its hash in the table, in its own session |
| SessionHistory.RevokedIsFrozen | internal/repository/mysql/sqlc/auth_sessions.sql.go:175-184 | a revoked row stays as it is, in every column, exactly until a status update makes it active |
| SessionHistory.RevokedCanComeBack | internal/repository/mysql/sqlc/auth_sessions.sql.go:213-218 | revoke, reactivate, rotate is a history |
| SessionHistory.TimesMonotone | internal/service/auth/refresh_token.go:51-59 | issue <= last refresh < expiry at every instant, and both never decrease, when each rotation is stamped no earlier than the row |
| SessionProtocol.GuardSurvives | internal/repository/mysql/sqlc/auth_sessions.sql.go:14-27 | two enabled operations that hold different locks do not disable each other or change each other's row |
| SessionProtocol.RejectIsJustified | internal/service/auth/refresh_token.go:27-65 | each of the three rejecting branches has an instant of the request's interval at which the token was not usable, the last one unless this token was re-minted in that interval |
| SessionProtocol.CommitKeepsInv | internal/service/auth/refresh_token.go:22-84 | committing one transaction keeps what every other one relies on |
| SessionProtocol.StepKeepsInv | internal/service/auth/refresh_token.go:20-84 | every step of every request keeps the invariant: history, held locks, justified outcomes, one report per committed operation |
| SessionRuns.SuccessLinearizes | internal/service/auth/refresh_token.go:20-84 | the committed databases are a history, and a successful refresh is one of its operations, enabled at every instant from its conditional update to its commit, after an enabled owner was read |
| SessionRuns.RunRowsTellHistory | internal/repository/mysql/sqlc/auth_sessions.sql.go:14-27 | in every reachable state each column of every session row is what the committed operations last wrote there |
| SessionRuns.IntervalIsOwn | internal/service/auth/refresh_token.go:11-22 | the token, clock reading and interval an outcome reports are those the request began and ended with |
| SessionRuns.LosersLeaveNoTrace | internal/service/auth/refresh_token.go:63-65 | a rejected or failed request has no operation in the history |
| SessionRuns.OneSuccessPerVersion | internal/service/auth/refresh_token.go:52-65 | at most one refresh ever succeeds per (session, version) pair, with no assumption on the tokens |
| SessionRuns.SuccessWasUsable | internal/service/auth/refresh_token.go:23-65 | a successful refresh found its token wholly usable when it read the user, exactly unless the last status update between its session read and its user read had revoked the session |
| SessionRuns.OneSnapshotWasUsable | internal/app/providers/auth.go:50 | when both reads of a successful refresh see one snapshot, as with one snapshot per transaction, the token was wholly usable at it |
| StaleReadRun.StaleReadSucceeds | internal/service/auth/refresh_token.go:23-65 | with a snapshot per statement the exception occurs: a run in which a refresh succeeds on a token that was unusable at its user read |
| SessionRuns.AccessNamesOwner | internal/service/auth/refresh_token.go:67-71 | every access token issued with a minted refresh token names that session and its owner |
| SessionRuns.LoginWasEnabled | internal/service/auth/login.go:20-71 | a login that commits read its user enabled at an instant of its own interval, and its access token is that user's for the new session |
| SessionProgress.UsableRefreshes | internal/service/auth/refresh_token.go:20-84 | from every reachable state a usable token whose row and new hash are not locked can be refreshed at once, and what that leaves |
| SessionProgress.EnabledLogsIn | internal/service/auth/login.go:15-85 | from every reachable state an enabled user can log in at once under a new session id and hash, and what that leaves |
| SessionRuns.OneSuccessPerToken | internal/service/auth/refresh_token.go:43-65 | with fresh hashes at most one refresh ever succeeds per refresh token |
| SessionRuns.RejectionIsJustified | internal/service/auth/refresh_token.go:27-65 | in any run, every "invalid token" has an instant of its interval at which the token was unusable, unless its own token was re-minted in that interval |
| SessionRuns.EveryRejectionIsJustified | internal/service/auth/refresh_token.go:27-65 | with fresh hashes every "invalid token" has an instant of its interval at which the token was unusable |
| SessionRuns.TokensFormOneChain | internal/service/auth/refresh_token.go:43-65 | in every reachable state the tokens of a session form one chain whose last the row holds, and version counts rotations and revocations; with fresh hashes only the last has its hash in the table |
| SessionRuns.RevokedStaysRevoked | internal/repository/mysql/sqlc/auth_sessions.sql.go:175-184 | over any run a revoked row stays as it is exactly until a status update makes it active |
| SessionRuns.SessionTimesMonotone | internal/service/auth/refresh_token.go:20-59 | with fresh hashes, honest clients and one clock that never goes back, refresh times and expiries never decrease along a session, though clocks are read before transactions |
| AuthService.NormalizeLoginIdentifier | internal/service/auth/login.go:87-93 | an identifier is trimmed, and lower-cased exactly when it contains an @ |
| AuthService.Service.FindUsable | internal/service/auth/refresh_token.go:23-41 | the reads of a refresh succeed exactly on a usable token when no read fails, and find the only session it is usable by |
| AuthService.Service.RotateFor | internal/service/auth/refresh_token.go:43-80 | the writes succeed exactly when random bytes, hash, subject and session id allow a pair; the whole new table |
| AuthService.Service.Refresh | internal/service/auth/refresh_token.go:10-85 | without interference: "invalid token" exactly for malformed or unusable tokens unless an earlier call failed; success exactly when nothing fails; no change at all on any error |
| AuthService.Service.Authenticate | internal/service/auth/login.go:20-41 | which of bad credentials, disabled user and internal error is given, and why |
| AuthService.Service.Login | internal/service/auth/login.go:15-85 | opens one session at version 0 exactly for an enabled user with the right password when nothing fails; no change at all on any error |
| AuthService.AccessIsReadable | internal/service/auth/refresh_token.go:67-80 | the issued access token parses to its user and session until it expires |
| AuthService.RefreshIsReadable | internal/service/auth/refresh_token.go:43-50 | the issued refresh token passes Parse and has the stored form that the row holds |
| AuthService.RefreshIsRotation | internal/service/auth/refresh_token.go:52-65 | a successful refresh is an enabled rotation of the session history |
| AuthService.LoginIsLogin | internal/service/auth/login.go:51-65 | a successful login is an enabled login of the session history |
| AuthService.RotationHandsOver | internal/service/auth/refresh_token.go:52-65 | after a rotation the new token is usable exactly until its expiry, the old one never, every other token as before |
| AuthService.LoginMintsOne | internal/service/auth/login.go:51-65 | a login adds one token usable until its expiry and leaves every other token as it was |
| Transactor.Runner.WithinTx | internal/platform/db/tx.go:29-55 | with a transaction in its context: the body's meaning inside that transaction, nothing committed; with none, even while others are open: result, data and events of one outermost unit |
| Transactor.Database.Run | internal/repository/mysql/query_factory.go:19-24 | a statement joins the transaction of its context, whichever of the open ones that is, and no other; or takes effect at once when the context has none |
| Transactor.Runner.RunBody | internal/platform/db/tx.go:33-48 | inside any number of open transactions, or none, each statement and call of a body is routed by the context it names |
| Transactor.InlineMeaning | internal/platform/db/tx.go:33-36 | replacing nested calls by their bodies, at any depth, does not change what a body means: result, events, committed data and every open transaction |
| Transactor.NestingIsInvisible | internal/platform/db/tx.go:33-36 | an outermost call has the same result and data with its nested calls inlined, and the driver and others see the same |
| Transactor.AllOrNothing | internal/platform/db/tx.go:38-54 | when all statements use the transaction's context they become visible together exactly when begin and commit succeed and the inlined body returns nil, otherwise none; a failed begin or commit is an error, and otherwise the body's own verdict stands; meanwhile others see the old data only, and transactions around the call stay as they were |
| Transactor.StraysStay | internal/platform/db/tx.go:38-54 | of any body: what bypassed the transaction stays, and the transaction's statements are there as well exactly on success, so a failing call leaves the data alone exactly when the bypassing statements cancel out |
| Transactor.EffectsLand | internal/repository/mysql/query_factory.go:19-24 | the committed data and the log of each open transaction change by exactly the statements routed there, in order |
| Transactor.OuterKeepsItsOwn | internal/platform/db/tx.go:33-54 | what a separate call sends to a transaction around it waits there whatever becomes of the call, and nothing else of that transaction changes |
| Transactor.OneStrayIsEnough | internal/repository/mysql/query_factory.go:20-23 | a failing call with one bypassing statement leaves its write behind |
| Registration.UserStore.Register | internal/service/auth/register.go:17-79 | alone, from the text of the command: which conflict is given and exactly when; both rows exactly when everything up to the commit succeeds, otherwise no change; success exactly when the final read works as well |
| Registration.StepKeepsInv | internal/service/auth/register.go:22-70 | every step of every concurrent registration keeps the invariant |
| Registration.AnswersExactly | internal/service/auth/register.go:22-79 | which step gives which answer: the two checks on the snapshot they read, the unique keys on the latest rows, the final read, a failure |
| Registration.RegisteredExactly | internal/service/auth/register.go:78 | over any run a request is registered exactly when its own final read finds the user, and unread exactly when it does not |
| Registration.RowIsOwn | internal/service/auth/register.go:18-22 | the row an answer speaks of, and the beginning of a conflict's interval, are those the request began with |
| Registration.FreeKeysRegister | internal/service/auth/register.go:22-79 | from every reachable state a registration whose keys and id are free goes through: its seven steps are enabled in turn and lead to both rows and the answer |
| Registration.UsersStayDistinct | migrations/000002_auth_schema.up.sql:9-10 | in every interleaving the committed users have pairwise distinct usernames and emails |
| Registration.CommittedHasBoth | internal/service/auth/register.go:42-69 | a committed registration has its user row and its USER binding in the latest database |
| Registration.BothRowsOrNeither | internal/service/auth/register.go:42-69 | no committed database has a new user without its USER binding or a new binding without its user |
| Registration.LoserLeavesNoTrace | internal/service/auth/register.go:27-53 | a conflict answer says something true of an instant of the request's interval, and neither it nor a failure leaves a trace |
| Registration.OneWinner | migrations/000002_auth_schema.up.sql:9-10 | of the registrations that share a username or email at most one commits |
| SchemaPolicy.Search | api/openapi/openapi_policy_test.go:1435-1473 | any call answers true exactly when the target is reachable without passing through cells marked before; what a fruitless call leaves marked is closed |
| SchemaPolicy.UsesTopLevelComponent | api/openapi/openapi_policy_test.go:1435-1473 | a root call is exact on every finite, possibly cyclic graph |
| SchemaPolicy.PlainExactly | api/openapi/openapi_policy_test.go:1450-1471 | a root call decides plain reachability for every cell and target exactly when components are present or no reference leads on to another one |
| SchemaPolicy.EdgesExactly | api/openapi/openapi_policy_test.go:1439-1471 | the goal and the edges of the search in the document's own terms: the reference text, resolved references, and allOf children, given up below a reference when there are no components |
| SchemaPolicy.InnerCallMayMiss | api/openapi/openapi_policy_test.go:1443-1446 | from a marked cell a reachable target can be missed |
| ValidationDocument.WalkEnds | internal/http/contract/validation_catalog.go:201-242 | the walks that count are exactly those that end in a property edge and leave no schema twice |
| ValidationDocument.WalkField | internal/http/contract/validation_catalog.go:222-236 | the field compiled at the end of a walk is the dotted path of its property names |
| ValidationDocument.WalkProperty | internal/http/contract/validation_catalog.go:222-236 | the field's schema, and whether it is required, are what the last schema on the walk says of the property |
| ValidationDocument.FieldOkExactly | internal/http/contract/validation_catalog.go:244-304 | a field is fine exactly when its extension in force is well formed, the operation has an id, the schema is there, each of the eight native constraints has a message, and no declared rule or message is blank |
| ValidationDocument.FieldDeclares | internal/http/contract/validation_catalog.go:271-302 | a field declares exactly its messages, its notBlank mark and its custom rules, under trimmed keys |
| ValidationDocument.OwnDeclares | internal/http/contract/validation_catalog.go:84-96 | an operation declares exactly its own messages, under its trimmed id |
| ValidationDocument.ParameterDeclares | internal/http/contract/validation_catalog.go:138-170 | a parameter declares one field for its schema and each of its media types, at its place, or the query if that is unknown |
| ValidationDocument.EffectiveIsLast | internal/http/contract/validation_catalog.go:120-136 | of the parameters with one place and name the last is in force, when no place holds a null character |
| ValidationCatalog.Catalog.AddMessage | internal/http/contract/validation_catalog.go:306-325 | fails exactly on a blank or conflicting pair and never changes a stored message |
| ValidationCatalog.Catalog.CompileField | internal/http/contract/validation_catalog.go:244-304 | compiles exactly what the field declares, or fails exactly when the field is not fine or conflicts; stores a notBlank rule first if the field is marked so, then its custom rules |
| ValidationCatalog.Catalog.CompileBodySchema | internal/http/contract/validation_catalog.go:194-242 | terminates on cycles, restores the stack on every return, compiles exactly the sites at the ends of schema-repeat-free walks, and leaves the rules of the visits in the sorted order |
| ValidationCatalog.Catalog.CompileParameters | internal/http/contract/validation_catalog.go:114-170 | compiles exactly the sites of the effective parameters, an operation's parameter replacing its path item's |
| ValidationCatalog.MergeParameters | internal/http/contract/validation_catalog.go:120-136 | a later parameter with the same place and name replaces an earlier one |
| ValidationCatalog.Catalog.CompileOperation | internal/http/contract/validation_catalog.go:74-112 | compiles exactly an operation's own messages, its parameters and its body, and stores its cross-field rules |
| ValidationCatalog.Catalog.CompileAll | internal/http/contract/validation_catalog.go:53-71 | compiles exactly the sites of all operations, nil ones skipped; cross-field rules of a later operation replace those of an earlier one with its id |
| ValidationDocument.CompileThen | internal/http/contract/validation_catalog.go:33-72 | compiling two sets of sites one after the other is compiling their union, so no order matters |
| ValidationCatalog.CompileValidationCatalog | internal/http/contract/validation_catalog.go:33-72 | succeeds exactly when every site is fine on its own and no two declarations disagree; then the messages are exactly the declared pairs, and the custom rules and cross-field rules are those the visits leave, by path, method and sorted names |
| CatalogOrder.LastSiteDecides | internal/http/contract/validation_catalog.go:289-291 | the rules of a field are those of the last visited site that has some under its key |
| CatalogOrder.CompiledRules | internal/http/contract/validation_catalog.go:280-291 | after a successful compilation the rules of a field are, from the extension of its last ruled site, the notBlank rule with its declared message exactly when marked, then the custom rules in order |
| CatalogOrder.VisitsAreSites | internal/http/contract/validation_catalog.go:216-240 | the compiler visits exactly the fields of the catalog's sites |
| CatalogOrder.RulesComeFromSites | internal/http/contract/validation_catalog.go:289-291 | a field has compiled rules exactly when some site has rules under its key, and they are one such site's |
| ValidationDocument.LastOperationDecides | internal/http/contract/validation_catalog.go:97-102 | the cross-field rules under an operation id are those of the last operation with that trimmed id that has any |
| ValidationDocument.NoOperationDecides | internal/http/contract/validation_catalog.go:97-102 | and if no operation with that id has any, the rules under it stay as they were |
| ValidationCatalog.MessageIsDeclared | internal/http/contract/validation_catalog.go:327-345 | the lookup gives the field's declared message, else the operation's, else nothing |
| ValidationCatalog.NativeRuleHasMessage | internal/http/contract/validation_catalog.go:266-270 | each of the eight native rules of a compiled annotated field has a non-blank message, the declared one |
| CustomRules.SortUniqueExactly | internal/http/contract/validation_custom_rules.go:87-107 | the sort of an operation's keys has one possible answer, for every map order and unstable sorts too, exactly when no two keys tie |
| CustomRules.TiesExactly | internal/http/contract/validation_custom_rules.go:98-123 | keys of one operation tie exactly when they share the field at two unknown places |
| CustomRules.UnknownPlacesTie | internal/http/contract/validation_custom_rules.go:109-124 | with places outside the five two different orders are possible |
| CustomRules.CompiledPlacesAreKnown | internal/http/contract/validation_catalog.go:142-148 | a compiled catalog only has keys with known places |
| CustomRules.CompiledSortIsUnique | internal/http/contract/validation_custom_rules.go:87-107 | for the rules a document compiles to, any two sorts of an operation's keys are equal |
| CustomRules.CustomRuleFields | internal/http/contract/validation_custom_rules.go:87-107 | returns exactly the operation's keys, each once, none before one that is less |
| CustomRules.PlacesInOrder | internal/http/contract/validation_custom_rules.go:87-124 | the order is body, query, path, header, cookie, then other places, and by name within a place |
| CustomRules.Request.RequestBodyCopy | internal/http/contract/validation_custom_rules.go:202-226 | a successful copy is the whole body, and the body still yields all of it afterwards |
| CustomRules.RequestValues.LoadBody | internal/http/contract/validation_custom_rules.go:182-200 | loads at most once and keeps the outcome; the body stays readable unless reading it failed, so also when it does not decode; a repeated call changes nothing at all |
| CustomRules.RequestValues.BodyString | internal/http/contract/validation_custom_rules.go:159-180 | walks the dotted path to a string, and gives nothing where the path breaks off or ends elsewhere |
| CustomRules.RequestValues.StringValue | internal/http/contract/validation_custom_rules.go:126-157 | the value a field has in the request, as a function of the request alone; the body stays readable unless reading it failed |
| CustomRules.ValueIsFound | internal/http/contract/validation_custom_rules.go:126-157 | outside the body: the first query or header value, the path value, or the cookie; an unreadable cookie is the only error |
| CustomRules.BodyIsSearched | internal/http/contract/validation_custom_rules.go:159-200 | in the body: nothing in an empty one or a null, a string exactly at the end of the dotted path through nested objects, an error exactly when it cannot be read or decoded |
| CustomRules.CanonicalExactly | internal/http/contract/validation_custom_rules.go:139-144 | a header name is looked up with the letters that start it or follow a hyphen in upper case, the others in lower case, and as it is when it is no token |
| CustomRules.HeaderNamesFold | internal/http/contract/validation_custom_rules.go:139-144 | header names are looked up as one exactly when they differ at most in the case of their letters |
| CustomRules.ContainsLetterAndDigit | internal/http/contract/validation_custom_rules.go:242-254 | true exactly when some character is an ASCII letter and some is an ASCII digit |
| CustomRules.VerdictIsUnique | internal/http/contract/validation_custom_rules.go:42-63 | every sort of the keys leads to one verdict, even where keys tie |
| CustomRules.ValidateCustomRules | internal/http/contract/validation_custom_rules.go:28-78 | one verdict per catalog and request, whichever way the keys are sorted; the body stays readable downstream unless reading it failed |
| CustomRules.CompileAndValidate | internal/http/contract/validation_custom_rules.go:28-78 | compiled and then used, the verdict is a function of the document and the request, by the rules of the last visited sites |
| CustomRules.VerdictReports | internal/http/contract/validation_custom_rules.go:42-77 | a violation is in the verdict exactly when a present value breaks the rule it reports (blank, no letter or no digit, not a time), or it is that of a notAfter rule of the operation whose left query value is a later time than the right one |
| CustomRules.OneWayRound | internal/http/contract/validation_custom_rules.go:256-265 | equal times are never reported, and of two rules with left and right exchanged at most one |
| CustomRules.CompiledFieldReports | internal/http/contract/validation_custom_rules.go:42-63 | from the document to the verdict: of a compiled field exactly those violations are reported that break the extension of its last ruled site, a blank value its notBlank mark among them |
| CustomRules.ReportedFieldIsTopLevel | internal/http/contract/validation_custom_rules.go:275-281 | a body violation is reported under the first segment of its path, others under their whole name |
| CustomRules.NothingToReport | internal/http/contract/validation_custom_rules.go:42-77 | the verdict is empty exactly when every field can be read and passes its rules if present, and no notAfter pair is reversed |
| Base64Url.EncodeAlphabet | internal/security/jwt/jwt.go:182-194 | output is of the 64 symbols, of a length fixed by the input, without dot or line end |
| Base64Url.DecodeEncode | internal/security/jwt/jwt.go:188-202 | decoding undoes encoding for every byte string |
| Base64Url.EncodeDecode | internal/security/jwt/jwt.go:196-202 | encoding undoes decoding exactly on canonical text |
| Base64Url.EncodeInjective | internal/security/refresh/refresh.go:43-47 | different byte strings have different encodings |
| Decimal.ParseFormat | internal/security/jwt/jwt.go:97-140 | parsing a printed 64-bit integer gives it back |
| Text.JoinSplit | internal/security/jwt/jwt.go:109-122 | splitting loses nothing |
| Text.TrimCuts | internal/security/jwt/jwt.go:91-101 | trimming cuts the text into spaces, the result, and spaces |
| Text.BlankExactly | internal/http/contract/validation_custom_rules.go:228-231 | nothing is left exactly of text that is all spaces |
| Text.LessExactly | internal/http/contract/validation_custom_rules.go:87-107 | strings are compared by the first place where they differ, a proper prefix first |
| Text.TrimSpace | internal/security/jwt/jwt.go:91-101 | the result is empty or has no space at either end |
| Jwt.ParseOfSigned | internal/security/jwt/jwt.go:108-180 | parsing what any codec with the same key signed gets back to validating the signed payload |
| Jwt.IssueThenParse | internal/security/jwt/jwt.go:87-164 | at every time, an issued token parses to its subject, trimmed session id, issuer, iat and exp, or is refused as expired, at the exact second |
| Jwt.LifetimeBounds | internal/security/jwt/jwt.go:94-153 | accepted up to one second before its nominal end and never from that end on |
| Jwt.OtherIssuerRefuses | internal/security/jwt/jwt.go:131-133 | a codec with the same key and another issuer refuses it |
| Jwt.SignatureDecides | internal/security/jwt/jwt.go:117-130 | under a proper header any third part but the base64url form of the MAC of the first two parts and their dot is a signature mismatch; with it the token parses to what its payload validates to |
| Jwt.AcceptedIsSigned | internal/security/jwt/jwt.go:108-130 | conversely, whatever is accepted is two such parts and the codec's own MAC of them, character for character |
| Jwt.SameSignatureSameToken | internal/security/jwt/jwt.go:122-124 | two accepted tokens with one signature part have signed parts with one MAC, and are one token exactly when these parts are equal |
| Jwt.OtherKeyRefuses | internal/security/jwt/jwt.go:122-124 | a codec with another key refuses a token exactly when its MAC of the signed parts differs |
| Jwt.ClaimsAreSound | internal/security/jwt/jwt.go:131-163 | validation lets through exactly the codec's issuer, access type, a future expiry, a positive 64-bit subject and non-blank ids, and hands the claims on unchanged |
| RefreshTokens.ReadFull | internal/security/refresh/refresh.go:43-46 | fills the buffer with the next bytes however the reader cuts them, or fails exactly when there are too few |
| RefreshTokens.Generate | internal/security/refresh/refresh.go:38-48 | encodes exactly the next 32 bytes, fails exactly when there are fewer, and its token always parses |
| RefreshTokens.GeneratedShape | internal/security/refresh/refresh.go:47-65 | 43 symbols, the last with two zero bits; Parse and Hash cannot fail on it |
| RefreshTokens.GeneratedExactly | internal/security/refresh/refresh.go:38-56 | exactly the parseable tokens with a zero tail can be generated |
| RefreshTokens.HashEquality | internal/security/refresh/refresh.go:59-65 | two tokens share a stored form exactly when their digests collide |
| RefreshTokens.RefreshTokenTTL | internal/security/refresh/refresh.go:68-73 | always positive, and the configured value when that is positive |
| Paging.NewRequest | internal/page/page_request.go:18-29 | accepts exactly pages from 1 and sizes from 1 to 100 |
| Paging.PageOffsetExact | internal/service/user/admin_users.go:106-116 | the dividing test accepts exactly the offsets that fit 32 bits, and the result is Offset |
| Paging.TotalPagesCover | internal/page/page_response.go:46-51 | TotalPages is the least number of pages that covers the list |
| Paging.PagesCoverList | internal/page/page_response.go:46-51 | pages 1 to TotalPages, concatenated, are the whole list |
| Paging.NewResponseExactly | internal/page/page_response.go:17-44 | a response is refused for its page, size or total, in this order, and otherwise carries what it was given |
| Paging.PageEmptiness | internal/page/page_response.go:34-42 | a page is empty exactly when it lies past TotalPages |
| Paging.MetadataIsTruthful | internal/page/page_response.go:17-44 | hasNext exactly when the next page holds something, hasPrevious exactly on a non-empty page after the first |
| Paging.AllPagesReachable | internal/service/user/admin_users.go:106-116 | every non-empty page can be asked for exactly when the last page's offset fits 32 bits |
| UserDirectory.RolesUnique | internal/repository/mysql/sqlc/roles.sql.go:47-53 | the per-user role query has one possible answer |
| UserDirectory.CodesForSorted | internal/repository/mysql/sqlc/roles.sql.go:78-85 | the codes picked out of the ordered batch are ascending and distinct |
| UserDirectory.FindRolesByUserIDs | internal/service/user/admin_users.go:141-158 | groups the batch rows into each user's codes in row order, none for a user without rows |
| UserDirectory.BatchAgrees | internal/repository/mysql/sqlc/roles.sql.go:78-85 | picking one user's rows out of the batch gives the per-user answer, order included |
| UserDirectory.ListingAgreesWithGetByID | internal/service/user/current_user.go:19-48 | every entry of a listing equals what GetByID gives for its user |
| UserDirectory.MatchListUnique | internal/repository/mysql/sqlc/users.sql.go:13-23 | criteria and total order leave one possible match list |
| UserDirectory.ListedOnce | internal/repository/mysql/sqlc/users.sql.go:153-165 | each user is in the match list at most once |
| UserDirectory.ListedExactly | internal/repository/mysql/sqlc/users.sql.go:153-165 | a user is in the match list of a query exactly when every filter lets it through |
| UserDirectory.RefusedExactly | internal/service/user/admin_users.go:91-130 | which page, size, offset or status is refused, zero standing for page 1 and size 20 |
| UserDirectory.NewestFirst | internal/repository/mysql/sqlc/users.sql.go:163 | through the pages and within each page creation times never rise, and ids fall where they are equal |
| UserDirectory.PageOneHasNewest | internal/repository/mysql/sqlc/users.sql.go:163 | page 1 opens with the newest match |
| UserDirectory.MatchListExists | internal/repository/mysql/sqlc/users.sql.go:153-165 | the order is total, so there is a match list for every directory and criteria |
| UserDirectory.BatchExists | internal/repository/mysql/sqlc/roles.sql.go:78-85 | the batch role query has an answer for every list of users |
| UserDirectory.ListUsers | internal/service/user/admin_users.go:14-54 | the first of page, offset and status that is bad is refused; otherwise it succeeds exactly when no query it makes fails, with the page of the match list, per-user roles and truthful metadata |
| Middleware.StatusRecorder.WriteHeader | internal/http/middleware/request_id.go:89-96 | only the first explicit status is recorded and passed on |
| Middleware.RecoverWriter.WriteHeader | internal/http/middleware/recover.go:72-78 | nothing after the first commit reaches the writer below |
| Middleware.RecoverWriter.Write | internal/http/middleware/recover.go:80-85 | the first write commits with 200, later ones only add bytes |
| Middleware.Serve | internal/http/middleware/recover.go:31-89 | for every trace the client gets the specified response, net/http sees at most one WriteHeader, logged bytes are the sent ones, logged status is the sent one unless the handler opens with a refused status |
| Middleware.PanicAfterCommitAddsNothing | internal/http/middleware/recover.go:51-53 | a panic after anything was written leaves the response as it was |
| Middleware.ServeRecorderOnly | internal/http/middleware/request_id.go:78-103 | the recorder alone logs the sent status exactly when no write precedes the first header or that header is 200 |

## Left out

- HTTP serving, routing, generated server and model code, handlers, Swagger assets, bootstrap, configuration, logging, Redis, error-code tables, request-id syntax and actuator endpoints: plumbing, or claims visible from one body.
- JSON, HMAC-SHA256, SHA-256, UUIDs, bcrypt, net/mail, `time.Parse`, `ToLower` and SQL `LIKE` are parameters. JSON reading back what it wrote is an assumption (`Jwt.Lawful`), which Go meets on valid UTF-8; token ids are assumed non-blank; that generated hashes are new is assumed only where a row says "fresh".
- kin-openapi request validation and parsing of the `x-validation` extension: parsed extensions are inputs.
- MySQL TIMESTAMP rounding, time zones, collations, lock-wait timeouts, deadlock victims other than as failures, and commits whose outcome is unknown; times are integers, equality is plain, and a failed commit leaves no change.
- Overflow of the 32-bit `version` column: versions are natural numbers, so the bound is 2147483647 rotations and revocations per session.
- Overflow of 64-bit integers: `total + size - 1` in paging, and clock plus lifetime.
- `client_ip_hash`, `user_agent_hash`, `user_agent_summary`, `created_at` and `updated_at` of a session, and the finders that differ only in their key.
- In the concurrent session model a request starts from the stored form of its token; parsing and hashing before it are in `AuthService.dfy`. A non-enabled user at login and wrong credentials end there as failures without a message.
- WithinTx: a context that outlives the function it was given to, and so names a transaction that has ended, is not modelled. A second transaction's writes are taken to be disjoint from what the first one has locked.
- Run: the same, a statement through the context of a transaction that has ended.
- In the concurrent registration model rows are as `Register` makes them, trimmed, lower-cased and with the password hash, and the USER role does not change while registrations run.
- Which error of a failing compilation is reported; `messages` of one extension are taken in any order, which changes nothing else.
- Informational (1xx) statuses, `Unwrap` and flushing in the response writers; what a write error does beyond the accepted byte count.
- What the page query and the batch role query return is an input of `ListUsers`; `MatchListExists`, `MatchListUnique` and `BatchExists` say that there is one such list, and an answer for every batch.
- Logout, which only looks at the principal and touches no table, and the update of a user's status as a use case; as a statement the latter is a step of the session model. No use case revokes a session; the statement that does is a step of the model.
