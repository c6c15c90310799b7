# Verified model of a FastAPI backend

A Dafny 4.11 model of the services of a FastAPI user-management backend: the credential protocol, the
stores that must agree with each other, keyset pagination, the OpenAPI audience projection, and the
account, room and storage-key logic around them. Check it with `dafny verify dfyconfig.toml`.

Each service call is one atomic step. The stores a core uses are a clock (in microseconds), a
Redis-like store whose keys expire, and tables that never lose a row. Every core comes as

- the transitions, as functions on the state (`Credentials`, `Totp`, `Permissions`, `Accounts`), or the
  queries themselves (`Keyset`, `OpenApi`, `StorageUrl`);
- the services as classes that change their stores step by step (`CredentialServices`, `TotpService`,
  `PermissionServices`, `AccountServices`, `OpenApiBuilder`, `Rooms`). The methods of the credential
  and account services are proved against outcomes that say, for every reply, when it is given and
  what has changed (`CredentialOutcomes`, `AccountOutcomes`, and in `TotpTheorems` and
  `PermissionTheorems` for the other two); lemmas show that the transitions have these outcomes;
- theorems about all inputs, all runs or all reachable states.

| module | models |
|---|---|
| `Credentials`, `CredentialOutcomes`, `CredentialInvariants`, `CredentialTheorems`, `CredentialProvenance`, `TokenRotation`, `KeyAttenuation`, `Scopes`, `CredentialServices` | access, refresh, partial-login and reset tokens, API keys, blacklist, session cutoff, clean-up job |
| `Totp`, `TotpTheorems`, `TotpService` | TOTP backup codes in Redis and in the database |
| `SecondFactor` | the credential protocol and the TOTP service together, over one user table |
| `Permissions`, `PermissionTheorems`, `PermissionServices` | the permission cache in front of the role tables |
| `Keyset`, `KeysetTheorems` | cursor and offset pagination |
| `Json`, `OpenApi`, `OpenApiTheorems`, `OpenApiBuilder` | the audience projection of an OpenAPI document |
| `Keys`, `Catalogue`, `Accounts`, `AccountOutcomes`, `AccountTheorems`, `AccountServices` | addresses, email verification, roles and administration of users |
| `Rooms` | the WebSocket room table |
| `StorageUrl`, `StorageUrlTheorems` | storage keys and public URLs |

## Modelling choices

- bcrypt is an ideal hash: it verifies exactly the text it was made from. A JWT signature is genuine iff
  the token is in the record of issued tokens. Random tokens and ids come from a counter, so they are
  fresh. A JWT carries whole seconds.
- Without leeway a JWT is expired from `exp` on (section 4.1.4 of RFC 7519). The library the code calls
  (python-jose) compares `exp` with the clock cut to whole seconds, so it accepts a token for one second
  more. `Settings.leeway` is that time, any time: the theorems hold for every value of it, and those on
  replay say what difference it makes.
- `issued` (with the parent of every credential), `sent`, and in `SecondFactor` the batches of codes and
  the factors, are history: the code has no such tables, and no branch depends on them except the
  signature check.
- The answer of the authenticator (`totpOk`; in the credential core alone, `codeOk`), the caller's
  resolved permissions in key creation, the batches of SCAN, the failing sockets and the freshly
  generated codes are arguments.
- In the credential core `EditUser` stands for every call that rewrites a user's row without touching
  `session_revoked_after`; the account core has those calls one by one.
- Addresses are a unique column, so the first row that a lookup by address answers is the only one.
- Letter case is changed on ASCII letters only; a user id is a text without the separator `|`.

## Where the code and its documentation differ

- Refresh rotation is documented as single use (app/services/auth.py:299-300). The blacklist TTL is the
  remaining life truncated to whole seconds, so a record never outlasts `exp`, and a later logout that
  names the token writes the record again, with a shorter one. The bound that holds always: rejected
  until less than one second before `exp` (`ConsumedStaysRejected`). Over all continuations a token can
  succeed a second time unless there is no leeway and it had exactly one second left at its first use
  (`ReplayableIff`). With nothing but waiting it takes a leeway or a part of a second
  (`ReplayIffPartialSecond`, and `ReplayWindow` for the instants); with whole seconds and no leeway it
  takes the logout (`LateLogoutReplays`). On a whole-second clock single use is exactly the absence of
  leeway (`WholeSecondReplayIff`).
- Logout is documented to make both tokens unusable in every operation
  (app/api/v1/endpoints/auth.py:289-290). The WebSocket handshake decodes the token and checks nothing
  else (app/websockets/manager.py:276-279): it accepts any issued JWT until its expiry, whatever was
  revoked (`HandshakeAcceptsUntilExpiry`, `ResetSparesTheHandshake`). The theorems about revocation
  speak of the HTTP API.
- A login in the same second as a password reset returns tokens that are already cut off, because `iat`
  is floored and the comparison is `<=`; `FreshPairWorksIff` is exact, and `LoginAfterResetWorksIff`
  shows it after a reset.
- A reset uses up its own token only: other reset tokens of the user stay usable until they expire
  (`OtherResetTokensStayUsable`).
- Starting a TOTP setup is documented to be refused when 2FA is active
  (app/api/v1/endpoints/totp.py:75-76). It is not: it switches 2FA off, and asks for no code
  (`SwitchedOffIff`). The next login of that user needs a password alone, and is recorded as unprotected
  in `EverySessionHasItsFactor`.
- The closure over schema names does not follow the bare reference "#/components/schemas/", although the
  same name found in a path is needed. `ComponentsAreClosedIff` is the exact condition on the source,
  `BareReferenceExample` a document that shows it.
- References are collected before "x-surfaces" is taken out. If an operation declares its surfaces as a
  dict with a reference in it, the projection may keep a component that nothing in the output mentions:
  `MinimalIff` and `ProjectionIsIdempotentIff` are exact, `SurfaceReferenceExample` is a document, and
  `ListsNameNothingNew` says that lists, which all routes use, are harmless.
- Role changes skip soft-deleted users when they invalidate the cache, and a restore does not invalidate
  it: `StepExactIff` and `RestoredUserReadsOldSet`. `ReadsAreRecent` bounds what is left.
- A restore does not check addresses: `RestoreKeepsNamespaceIff`, and `RestoreCanBreakNamespace` for a run
  from a new system.
- `get_page` is documented to return the total number of rows; it reads the count off the first row of
  the page, so a page past the end reports 0. `PageTotalIff` is exact.
- The API-key model speaks of a prefix of eight characters (app/db/models/api_key.py:30); the service
  stores twelve.

## Model

| member | source | states |
|---|---|---|
| `Json.RefsArePositions` | app/api/v1/openapi.py:25-35 | the collected references are exactly the strings found under a "$ref" key at some position of the tree, at any depth of dicts and lists |
| `OpenApiBuilder.CollectRefs` | app/api/v1/openapi.py:25-35 | the recursive collector adds exactly the tree's references to the set it is given |
| `OpenApiBuilder.CollectAllSchemaRefs` | app/api/v1/openapi.py:46-68 | the worklist terminates in spite of duplicates and unknown names, and returns exactly the names reachable from the start set |
| `OpenApi.ReachableIsLeastClosed` | app/api/v1/openapi.py:46-68 | reachable names lie in every set that contains the start set and is closed under dependencies: the closure is the least one |
| `OpenApiBuilder.FilterItem` | app/api/v1/openapi.py:88-104 | collect-then-delete leaves exactly the entries that are not hidden operations; it raises iff some operation's "x-surfaces" is a scalar or holds a list or dict |
| `OpenApiBuilder.FilterPaths` | app/api/v1/openapi.py:86-112 | paths without a method left are deleted, all others keep their visible entries; it raises iff one of their items does |
| `OpenApiBuilder.PruneSchemas` | app/api/v1/openapi.py:114-127 | the component table keeps exactly the components reachable from the kept paths |
| `OpenApiBuilder.StripSurfaces` | app/api/v1/openapi.py:129-133 | "x-surfaces" leaves every operation, nothing else changes |
| `OpenApiBuilder.BuildSchema` | app/api/v1/openapi.py:71-134 | for every document: the exception, or the projection that the lemmas are about |
| `OpenApiBuilder.SchemaGenerator.Generate` | app/api/v1/openapi.py:137-157 | cached or computed, the caller gets the projection or the exception; the cache changes only outside debug mode and only on success |
| `OpenApiTheorems.WhoSeesAnOperation` | app/api/v1/openapi.py:96-102 | an operation is in the projection iff it declares nothing or its "x-surfaces" yields "shared" or the audience's name: as an item of a list, or a key of a dict; a text never does |
| `OpenApiTheorems.ReadableIff` | app/api/v1/openapi.py:97-101 | a document is refused iff some operation's "x-surfaces" is a scalar or a list holding a list or dict |
| `OpenApiTheorems.DependencyIff` | app/api/v1/openapi.py:38-43 | a component or a path needs a name iff the prefix followed by that name stands under a "$ref" at some position; the closure skips the empty name |
| `OpenApiTheorems.ProjectionIsExact` | app/api/v1/openapi.py:86-133 | an entry survives iff it is no operation for other audiences only and its path keeps a method; an operation loses "x-surfaces" and nothing else |
| `OpenApiTheorems.ProjectionInventsNothing` | app/api/v1/openapi.py:71-134 | every path, entry and component of the output is the source's, every path has a method |
| `OpenApiTheorems.KeptIffReached` | app/api/v1/openapi.py:114-127 | a component is kept iff the output's own paths, or a removed "x-surfaces", reach it |
| `OpenApiTheorems.MinimalIff` | app/api/v1/openapi.py:114-133 | the kept components are those the output's paths reach, iff kept operations name nothing under "x-surfaces" that is not reached without it |
| `OpenApiTheorems.ListsNameNothingNew` | app/api/v1/openapi.py:97-99 | which holds of every document whose surfaces are lists or texts |
| `OpenApiTheorems.SurfaceReferenceExample` | app/api/v1/openapi.py:114-133 | a document on which the projection is not minimal |
| `OpenApiTheorems.PathsStayResolved` | app/api/v1/openapi.py:114-127 | no reference of a kept path is broken |
| `OpenApiTheorems.ComponentsAreClosedIff` | app/api/v1/openapi.py:59-67 | references between kept components stay resolved iff no component reached from the visible paths holds the bare prefix naming an unneeded component ""; so always where there is no component "" |
| `OpenApiTheorems.BareReferenceExample` | app/api/v1/openapi.py:64-67 | a document on which the projection does break a reference between components |
| `OpenApiTheorems.ProjectionIsIdempotentIff` | app/api/v1/openapi.py:71-134 | projecting the output again for the same audience changes nothing iff the projection was minimal |
| `Keyset.OrderedIsUnique` | app/db/repositories/base.py:222-228 | a set of rows has one listing per order, so ORDER BY on (created_at, id) fixes the result |
| `Keyset.PageTotalIff` | app/db/repositories/base.py:134-162 | an offset page is a clamped stretch of the table, and its total is the table's size iff the page is not past the end |
| `Keyset.PageSplitsRemaining` | app/db/repositories/base.py:196-234 | a page is the first rows after the cursor; the limit+1 probe says exactly whether more remain, and what remains after the new cursor is the rest |
| `KeysetTheorems.ExactlyOnceUnderInterference` | app/db/repositories/base.py:164-234 | under arbitrary inserts and deletes between fetches: newest first (oldest first for "asc"), ids deciding ties, every filter met, no row twice, and every row present throughout is returned when the traversal ends |
| `KeysetTheorems.CursorOutcome` | app/schemas/common.py:55-100 | only the key of a cursor counts, however it is spelled; an empty cursor is none, one that does not decode is refused |
| `KeysetTheorems.NoRowsAskedFor` | app/db/repositories/base.py:227-234 | a limit of zero gives no rows and no cursor |
| `KeysetTheorems.KeysetRefinesOffset` | app/db/repositories/audit_log.py:129-205 | on a fixed table the traversal ends after max(1, pages) fetches, page k is the k-th offset page of the sorted filtered rows, and the pages concatenate to all of them |
| `KeysetTheorems.ChunksAreOffsetPages` | app/utils/helpers.py:12-23 | cutting a list by the page size gives `paginate`'s pages, as many as `calculate_pages` says (one if the list is empty) |
| `KeysetTheorems.PagesIff` | app/schemas/common.py:19-40 | the number of pages is the least that holds all rows |
| `KeysetTheorems.PaginateIff` | app/utils/helpers.py:12-23 | a page is the items between its bounds, a bound below zero counting from the end |
| `KeysetTheorems.AscendingTraversalIsReversed` | app/db/repositories/base.py:196-228 | the "asc" traversal is the "desc" one backwards |
| `Scopes.SplitJoin` | app/services/api_key.py:95-105 | splitting the joined words gives the words back |
| `Scopes.ScopesRoundTrip` | app/api/dependencies/auth.py:144-145 | the scope set read at authentication is the set requested at creation |
| `Scopes.SortedSetIsSorted` | app/services/api_key.py:95 | the stored scopes are strictly increasing: sorted, no duplicates |
| `Scopes.LessIff` | app/services/api_key.py:95 | the order is that of the first differing character, a proper beginning coming first |
| `Scopes.SpaceIff` | app/api/dependencies/auth.py:144-145 | the stored text is cut at the white space of Unicode |
| `CredentialInvariants.StepSane` | app/services/auth.py:114-391 | every call keeps the protocol's invariant: fresh identifiers, parents of the same owner, TTLs on every record, cutoffs in the past |
| `CredentialInvariants.ReachableIsSane` | app/services/auth.py:114-391 | every reachable state satisfies it |
| `CredentialTheorems.ResetIsABarrier` | app/services/account.py:186-216 | after a reset, in every continuation, the HTTP API accepts no earlier access, refresh or partial token or API key of the user, nor anything derived from one; no such descendant is even issued |
| `CredentialTheorems.DeadIsRejected` | app/services/auth.py:248-253 | what the reset kills is rejected at refresh, TOTP completion, bearer and key authentication |
| `CredentialProvenance.JwtAcceptedIff` | app/api/dependencies/auth.py:148-165 | the HTTP API accepts a JWT iff unexpired, not blacklisted, of a live active user and issued after the cutoff |
| `CredentialProvenance.HandshakeAcceptsUntilExpiry` | app/websockets/manager.py:276-288 | in every continuation the WebSocket handshake accepts an issued JWT iff its expiry, with the leeway, has not come |
| `CredentialProvenance.ResetSparesTheHandshake` | app/websockets/manager.py:276-288 | a JWT cut off by a reset is rejected everywhere else and still joins rooms exactly until its expiry |
| `CredentialProvenance.EveryCredentialIsEarned` | app/services/auth.py:183-323 | at any point of any run a new credential comes from a correct password login with the address in any letter case (partial only, when TOTP is on) or from one credential accepted at that moment, of the right kind |
| `CredentialProvenance.PartialTokenWorksOnce` | app/services/auth.py:226-259 | a partial token is rejected ever after its first attempt, successful or not |
| `CredentialProvenance.ResetTokenWorksOnce` | app/services/account.py:191-199 | a reset token that succeeded is rejected ever after |
| `CredentialProvenance.OtherResetTokensStayUsable` | app/services/account.py:191-199 | another reset token of the same user still works after a reset, exactly until its own expiry |
| `CredentialProvenance.ResetTokensAreRequested` | app/services/account.py:160-184 | a reset token arises only from the address, in any letter case, of an active user with a password, or from inviting an admin without one, and is that user's |
| `CredentialProvenance.TokensLiveForTheirLifetime` | app/core/security.py:144-238 | an issued JWT is rejected for ever once its configured lifetime and the leeway are over, and has not expired while more than the last second of its life is left |
| `CredentialProvenance.RevokedKeyIsNeverAccepted` | app/services/api_key.py:128-150 | a revoked key never authenticates again, in any continuation |
| `CredentialProvenance.MintedKeyAuthenticatesIff` | app/services/api_key.py:167-219 | the raw key handed out authenticates as the new row iff it is not born expired and no older usable key has the same text |
| `TokenRotation.ConsumedStaysRejected` | app/services/auth.py:303-323 | a token consumed by refresh or logout is rejected by the HTTP API at every instant up to one second before its expiry, whatever is written to the blacklist meanwhile |
| `TokenRotation.BlacklistKeepsConsumed` | app/services/auth.py:373-389 | overwriting a blacklist record, for the same or another token, does not weaken that bound |
| `TokenRotation.RefreshSucceedsOnce` | app/services/auth.py:261-323 | on a whole-second clock and without leeway a refresh token succeeds at most once ever |
| `TokenRotation.WholeSecondReplayIff` | app/core/security.py:290-295 | on a whole-second clock a second success is possible iff there is a leeway |
| `TokenRotation.ReplayWindow` | app/services/auth.py:317-319 | with time passing only, a second refresh succeeds exactly between the end of the truncated blacklist TTL and the expiry with its leeway |
| `TokenRotation.ReplayIffPartialSecond` | app/services/auth.py:317-319 | waiting alone opens that window iff there is a leeway or the remaining life was not a whole number of seconds |
| `TokenRotation.LastSecondIsNeverReplayed` | app/services/auth.py:303-323 | with exactly one second left at its use and no leeway a refresh token never succeeds again, in any continuation |
| `TokenRotation.LateLogoutReplays` | app/services/auth.py:373-389 | with two or more whole seconds left, a logout half a second later shortens the record, and the token succeeds again just before its expiry |
| `TokenRotation.ReplayableIff` | app/services/auth.py:261-391 | over all continuations: a refresh token can succeed a second time iff there is a leeway or it did not have exactly one second left at its first use |
| `TokenRotation.CutoffIsTwoSided` | app/core/security.py:241-247 | with `iat` floored, tokens issued at or before the cutoff are cut off and tokens issued a second later are not |
| `TokenRotation.CutOffTokenStaysRejected` | app/core/security.py:241-247 | the cutoff only grows, so the HTTP API rejects a cut-off token in every continuation |
| `TokenRotation.FreshPairWorksIff` | app/core/security.py:183-190 | the tokens of a login work iff its floored second lies after the cutoff |
| `TokenRotation.LoginAfterResetWorksIff` | app/services/account.py:203-211 | after a reset and a wait the same user's login works iff a whole second has begun in between; at once never, a second later always |
| `TokenRotation.CleanUpIsNoOp` | app/tasks/worker.py:231-246 | on every state the services can reach, the clean-up job deletes nothing |
| `KeyAttenuation.ChainsOnlyAttenuate` | app/api/v1/endpoints/api_keys.py:170-185 | in every run, a credential confers at most what any credential it derives from confers, and at most the owner's set |
| `KeyAttenuation.ReachableIsAttenuated` | app/api/v1/endpoints/api_keys.py:170-185 | the scope invariant behind it holds in every reachable state |
| `KeyAttenuation.MintedKeyHasRequestedScopes` | app/services/api_key.py:93-105 | a new key has exactly the requested scopes, all effective for the credential that minted it |
| `KeyAttenuation.EffectiveIsWhatRequestsGet` | app/api/dependencies/auth.py:206-222 | the permissions reasoned about are those computed for an authenticated request |
| `CredentialOutcomes.LoginIsOutcome` | app/services/auth.py:183-224 | tokens or a partial token iff the first live, active row of the lower-case address and surface has the password; otherwise, and only then, a refusal that changes nothing |
| `CredentialOutcomes.LookupIff` | app/db/repositories/user.py:107-140 | the lookup by address returns a row iff it is the first live, active one of the address and surface |
| `Prelude.VerifyIff` | app/core/security.py:83-127 | a hash verifies the text it was made from and no other |
| `CredentialOutcomes.RightPasswordLogsIn` | app/services/auth.py:205-224 | the only user of an address on a surface gets in with the right password: tokens of that user, or a partial login when TOTP is on |
| `CredentialOutcomes.LoginRefusedIff` | app/services/auth.py:205-210 | a login is refused iff no row that the lookup may return has the password |
| `CredentialOutcomes.TotpLoginIsOutcome` | app/services/auth.py:226-259 | a live partial token is gone whatever the reply; tokens iff the partial login stands and the code is right |
| `CredentialOutcomes.RefreshIsOutcome` | app/services/auth.py:261-323 | the exact case of every refusal, which changes nothing; success records the old token for its whole seconds and issues a fresh pair |
| `CredentialOutcomes.LogoutOutcomeIsUnique` | app/services/auth.py:325-391 | what logout records, key by key, leaves nothing about the store open |
| `CredentialOutcomes.ForgotIsOutcome` | app/services/account.py:160-184 | the reply is always the same; a token comes into being iff the first live, active row of the address has a password, and is for that row |
| `CredentialOutcomes.OwnAddressGetsResetToken` | app/services/account.py:160-184 | the only active user of an address, with a password, gets a reset token, readable while its TTL lasts |
| `CredentialOutcomes.InviteIsOutcome` | app/services/user.py:133-143 | only a live admin without a password is invited |
| `CredentialOutcomes.ResetIsOutcome` | app/services/account.py:186-216 | a reset changes three columns of one row, turns off that user's keys and no other, and uses up the token; a refusal changes nothing |
| `CredentialOutcomes.KeyIsOutcome` | app/services/api_key.py:167-219 | a presented text is the first row that is active, unexpired and made for it; without the prefix or such a row it is refused |
| `CredentialOutcomes.AuthIsOutcome` | app/api/dependencies/auth.py:111-165 | a key is accepted iff the row it opens has a live, active owner, as that owner with the stored scopes; a JWT iff it is an unexpired, unlisted access token of a live, active user, from after the cutoff; each refusal has its exact case |
| `CredentialOutcomes.DeactivationClosesTheDoor` | app/api/dependencies/auth.py:138-163 | after a deactivation no key and no token of the user is accepted |
| `CredentialOutcomes.EditsKeepTheCutoff` | app/services/user.py:750-816 | no other write to a row moves the cutoff, and a new user has none |
| `CredentialOutcomes.CreateIsOutcome` | app/api/v1/endpoints/api_keys.py:143-187 | a key is created iff every scope is a word and granted to the caller, who may create keys, and the prefix is new to the user; the row, the record and each refusal are spelled out |
| `CredentialOutcomes.EffectiveIff` | app/api/dependencies/auth.py:206-222 | a permission is effective iff the owner has it and, for a key, it is among the scopes |
| `CredentialOutcomes.RevokeIsOutcome` | app/services/api_key.py:128-150 | the first row of the id is switched off iff it is the user's, anything else is not found |
| `CredentialOutcomes.CleanUpOutcome` | app/tasks/worker.py:231-246 | blacklist records, verification and reset tokens without a TTL go, and nothing else |
| `CredentialServices.AuthService.Login` | app/services/auth.py:183-224 | has the login outcome: the first active row of the lower-case address and surface, its password, its TOTP flag |
| `CredentialServices.AuthService.CompleteTotpLogin` | app/services/auth.py:226-259 | the partial token is consumed first; a pair comes only for an active owner, a token after the cutoff and a right code |
| `CredentialServices.AuthService.Refresh` | app/services/auth.py:261-323 | has the refresh outcome: all refusals leave the stores alone; success blacklists the old token for its whole seconds left and issues a pair |
| `CredentialServices.AuthService.Logout` | app/services/auth.py:325-391 | the access token is blacklisted, the refresh token too if it decodes as one, and a bad one does not matter |
| `CredentialServices.AuthService.Blacklist` | app/services/auth.py:317-319 | writes the record iff a whole second is left |
| `CredentialServices.Backend.CreateTokenPair` | app/core/security.py:303-339 | the two tokens of a pair, with floored `iat` and `exp` |
| `CredentialServices.ApiKeyService.Authenticate` | app/services/api_key.py:167-219 | the candidate loop has the key outcome: the first active, unexpired row that verifies |
| `CredentialServices.ApiKeyService.CurrentAuth` | app/api/dependencies/auth.py:111-165 | has the authentication outcome: both paths with all their refusals, the owner's `is_active` included |
| `CredentialServices.ApiKeyService.Create` | app/api/v1/endpoints/api_keys.py:143-187 | has the creation outcome: the refusals in the code's order, or one new row with the requested scopes |
| `CredentialServices.ApiKeyService.Revoke` | app/services/api_key.py:128-150 | has the revocation outcome: only the owner's row is switched off |
| `CredentialServices.ApiKeyService.RevokeAllForUser` | app/services/api_key.py:152-165 | the loop deactivates every key of the user and touches no other |
| `CredentialServices.AccountService.ForgotPassword` | app/services/account.py:160-184 | has the outcome of asking for a reset: silent for unknown addresses, otherwise a fresh token for the first active row of the address |
| `CredentialServices.AccountService.IssueAdminInvite` | app/services/user.py:133-143 | a reset token for a live admin without a password, a refusal otherwise |
| `CredentialServices.AccountService.ResetPassword` | app/services/account.py:186-216 | password, cutoff, verification flag and key revocation in one transition |
| `CredentialServices.CleanUpJob.Run` | app/tasks/worker.py:231-246 | whatever batches SCAN returns, exactly the keys without TTL under the three patterns are deleted, each counted once |
| `TotpTheorems.TryRefines` | app/services/totp.py:215-239 | trying a code through Redis answers and changes the rows exactly as trying it on the rows alone |
| `TotpTheorems.CacheIsUnobservable` | app/services/totp.py:215-302 | over every run, with any user's set lost at any moment, replies and database are those of the database-only service |
| `TotpTheorems.CodesAreConserved` | app/services/totp.py:241-331 | within a generation, active codes plus uses equal the codes generated, for all codes and for each code |
| `TotpTheorems.EachCodeWorksAtMostOnce` | app/services/totp.py:257-275 | distinct codes are accepted at most once each, and only codes of the newest generation are |
| `TotpTheorems.ReportedCountIsWhatIsLeft` | app/services/totp.py:333-350 | the reported count is the number generated minus the number used |
| `TotpTheorems.LoginNeedsACode` | app/services/totp.py:189-213 | the second factor succeeds iff a secret exists and the code is current or, in any letter case, an unused backup code |
| `TotpTheorems.SwitchedOnIff` | app/services/totp.py:101-138 | TOTP goes on iff the authenticator's code for the stored secret is presented to `verify_and_enable`, which then returns the minted codes |
| `TotpTheorems.SwitchedOffIff` | app/services/totp.py:59-168 | TOTP goes off iff it is disabled with a right code or a new setup is started, which asks for none |
| `TotpTheorems.StepIsOutcome` | app/services/totp.py:59-350 | for every call, with Redis in front: the reply, the two columns and the code rows it leaves; the count is the number of unused rows |
| `TotpTheorems.CacheOutcome` | app/services/totp.py:215-302 | the Redis set holds minted codes for the configured days, loses a used code and no other, and goes when TOTP is disabled |
| `Totp.UpperIff` | app/services/totp.py:213 | upper case takes 32 off the small ASCII letters and changes nothing else |
| `TotpService.TOTPService.TryBackupCode` | app/services/totp.py:215-239 | Redis first, rows behind it |
| `TotpService.TOTPService.TryBackupCodeFromDb` | app/services/totp.py:257-275 | the loop with early return consumes the first active row that verifies |
| `TotpService.TOTPService.GetActiveCodes` | app/db/repositories/totp_backup_code.py:34-61 | exactly the user's unused rows, in table order |
| `TotpService.TOTPService.MarkUsed` | app/db/repositories/totp_backup_code.py:90-107 | one row changes |
| `TotpService.TOTPService.DeleteAllForUser` | app/db/repositories/totp_backup_code.py:109-123 | used and unused rows of the user go, no other |
| `TotpService.TOTPService.PersistBackupCodes` | app/services/totp.py:277-302 | both stores hold the new codes only |
| `TotpService.TOTPService.VerifyAndEnable` | app/services/totp.py:101-138 | without a secret or with a wrong authenticator code nothing changes; otherwise TOTP is on, whatever rows there were, and both stores hold exactly the new codes |
| `TotpService.TOTPService.Disable` | app/services/totp.py:140-168 | refused when off or on a wrong code; otherwise secret, flag, Redis set and all code rows of the user are gone |
| `TotpService.TOTPService.RegenerateBackupCodes` | app/services/totp.py:304-331 | refused when off or on a wrong code; otherwise only the new codes remain, in both stores |
| `TotpService.TOTPService.GetBackupCodeCount` | app/services/totp.py:333-350 | refused when off; otherwise the number of the user's unused rows |
| `SecondFactor.EverySessionHasItsFactor` | app/services/auth.py:226-259 | in every run of both services: the session of a token or an API key began with a password login while TOTP was off, or with a partial login that the authenticator or a backup code of the user's own batches let through; one code lets one login through, ever |
| `SecondFactor.HistoryIsTrue` | app/services/auth.py:183-259 | the record behind it: only a password login while TOTP is off counts as unprotected, and a factor is recorded only if the TOTP service accepted it, a backup code being unused in the newest batch |
| `SecondFactor.StepSane` | app/services/totp.py:101-331 | every call of either service keeps the joint invariant: active codes are of the newest batch, used ones are inactive, every token is rooted |
| `SecondFactor.LoginAsksForFactorIff` | app/services/auth.py:205-224 | a right password gives a partial login iff the TOTP service has TOTP on for the user, and tokens otherwise |
| `SecondFactor.EnablingProtectsTheNextLogin` | app/services/totp.py:101-138 | once a user has enabled TOTP, the next password login gives a partial token only |
| `SecondFactor.DisablingOpensTheNextLogin` | app/services/totp.py:140-168 | once the user has disabled it with a right code, the password is enough again |
| `SecondFactor.CompletionIff` | app/services/auth.py:226-259 | completing a partial login has the outcome of a right code iff the login stands and its user's second factor is right; exactly then the factor is put on record |
| `SecondFactor.CompletedGetsTokens` | app/services/auth.py:226-259 | and exactly then tokens are issued |
| `SecondFactor.CredentialCallKeepsTotp` | app/services/auth.py:114-181 | registering adds a user with TOTP off, and no other credential call touches TOTP |
| `PermissionTheorems.LiveUsersReadTheTruth` | app/services/permissions.py:78-85 | for a user not soft-deleted since the entry was cached, every interleaving of reads, role changes, seeding and losses reads the current set |
| `PermissionTheorems.StepExactIff` | app/db/repositories/role.py:72-77 | one call makes an exact cache inexact iff it changes the rows of a soft-deleted user's role behind an entry |
| `PermissionTheorems.RestoredUserReadsOldSet` | app/services/user.py:888-921 | such a run: delete, change the role, restore, and the old set is read |
| `PermissionTheorems.ReadsAreRecent` | app/services/permissions.py:31-47 | every set read was the true one at some instant within the last TTL |
| `PermissionTheorems.RoleUpdateIsVisible` | app/services/role.py:94-138 | live holders read the new set at once |
| `PermissionTheorems.AssignmentIsVisible` | app/services/user.py:817-846 | an assigned role is in force at the next read |
| `PermissionTheorems.SeedingIsVisible` | app/admin/seed.py:52-82 | seeding adds, and the union is read at once |
| `PermissionTheorems.ReadIsOutcome` | app/services/permissions.py:31-85 | an unexpired, well-formed entry answers; otherwise the tables do, and the answer is cached for the whole TTL |
| `PermissionTheorems.RoleCallIsOutcome` | app/services/role.py:68-157 | updating, creating, deleting and seeding a role: every refusal with its exact case, the rows left, and exactly the live holders' entries dropped |
| `PermissionTheorems.UserCallIsOutcome` | app/services/user.py:817-921 | assigning drops the user's entry; deleting and restoring drop none |
| `PermissionServices.FindInvalidPermissions` | app/core/permissions.py:140-147 | each unknown value once, no known one |
| `PermissionServices.RoleServices.GetPermissions` | app/services/permissions.py:78-85 | read-through, with undecodable entries dropped |
| `PermissionServices.RoleServices.CacheGet` | app/services/permissions.py:31-40 | a hit is the stored set; an undecodable entry is deleted |
| `PermissionServices.RoleServices.SetPermissions` | app/db/repositories/role.py:48-57 | replaces the rows, or refuses unknown and repeated values |
| `PermissionServices.RoleServices.UpdateRole` | app/services/role.py:94-138 | rows replaced and holders' entries dropped, system roles refused |
| `PermissionServices.RoleServices.CreateRole` | app/services/role.py:68-92 | the new role, or nothing at all on error |
| `PermissionServices.RoleServices.DeleteRole` | app/services/role.py:140-157 | refused for system roles and roles in use |
| `PermissionServices.RoleServices.SeedRole` | app/admin/seed.py:67-130 | creates or completes a system role |
| `Keys.EmailVerifyRoundTrip` | app/services/_keys.py:29-44 | decode(encode(id, addr)) = (id, lower(addr)), for addresses that contain the separator too |
| `Keys.PartialLoginRoundTrip` | app/services/auth.py:55-63 | the same for partial-login values, and the old form without a time |
| `Keys.LowerIff` | app/services/_keys.py:29-44 | lower case adds 32 to the ASCII capitals and changes nothing else |
| `AccountTheorems.AddressesStayDisjoint` | app/db/repositories/user.py:154-182 | in every run without a restore, distinct live users claim disjoint, lower-case addresses |
| `AccountTheorems.OverlapIff` | app/db/repositories/user.py:154-182 | two users overlap iff an email of one is an email or pending email of the other, or their pending emails agree |
| `AccountTheorems.RestoreKeepsNamespaceIff` | app/services/user.py:888-921 | a restore keeps that iff no live user has taken one of the restored addresses |
| `AccountTheorems.RestoreCanBreakNamespace` | app/services/user.py:888-921 | a run from a new system that breaks it: register, delete, another user asks for the address, restore |
| `AccountTheorems.TokensGoToClaimedAddresses` | app/services/user.py:163-176 | a verification token is sent only to an address that the user it names claims |
| `AccountTheorems.EmailChangesAreProved` | app/services/account.py:84-126 | a user's email changes only to the pending address, by a token sent to that user for that address and within its TTL |
| `AccountTheorems.ProtectedAdminsAreNeverLost` | app/services/user.py:198-231 | in every run no live, active panel admin is lost, and system roles keep their permissions and existence |
| `AccountTheorems.RoleIsKept` | app/services/role.py:109-157 | role names are immutable; a role in use or a system role is not deleted |
| `AccountTheorems.ManagementTouchesOnlyTheTarget` | app/services/user.py:198-231 | administration changes no row but the target's, and never the actor's |
| `AccountServices.UserService.EmailExists` | app/db/repositories/user.py:154-182 | true iff some other live user claims the address as email or pending email |
| `AccountServices.UserService.GetManageableTarget` | app/services/user.py:198-231 | not found, self and protected-admin refusals in this order |
| `AccountOutcomes.SelfEmailIsOutcome` | app/services/user.py:490-520 | done iff six conditions hold, and then only this row's pending address and verified flag change and one token is sent; each refusal has its exact case and changes nothing |
| `AccountOutcomes.AdminEmailIsOutcome` | app/services/user.py:623-659 | the same for a manageable target, without a password |
| `AccountOutcomes.SentTokenDecodes` | app/services/user.py:163-176 | the token that is sent reads back as the user and the lower-case address |
| `AccountOutcomes.VerifyIsOutcome` | app/services/account.py:84-126 | a live token is gone whatever the reply; the pending address becomes the email, or the user becomes verified, or nothing else changes |
| `AccountOutcomes.RegisterIsOutcome` | app/services/auth.py:114-181 | refused iff a live user claims the lower-case address or some row has the id or address; otherwise one active, unverified client row, the default role spelled out, and one token for its address |
| `AccountOutcomes.DefaultRoleIff` | app/db/repositories/user.py:36-57 | the default role is the first live system "app_user", else the first live "app_user", else a new system one; the role table grows in the last case only |
| `AccountOutcomes.RegistrationGivesAppUser` | app/db/repositories/user.py:36-57 | whoever registers holds a live "app_user" role; the table grows, by one system role with sixteen permissions and no way into the admin panel, iff none existed |
| `Catalogue.SixteenPermissions` | app/core/permissions.py:81-98 | the starting permissions are sixteen different ones |
| `Catalogue.StartingPermissionsStayOutside` | app/core/permissions.py:81-135 | none of them opens the admin panel |
| `AccountOutcomes.AdminUserIsOutcome` | app/services/user.py:690-721 | refused for a claimed address, a taken user name, an unknown role, a role without any panel permission, or an occupied row, in this order; otherwise one admin row without password, with the first live role of that name |
| `AccountOutcomes.ManageIsOutcome` | app/services/user.py:776-921 | activating, assigning a role, deleting, restoring and resending: the exact refusal of the guard, or one column of the target's row, or one token |
| `AccountOutcomes.ResendIsOutcome` | app/services/account.py:128-158 | another mail goes to the unverified user of the address, or else to whoever has it pending; the reply never tells |
| `AccountOutcomes.RoleIsOutcome` | app/services/role.py:68-157 | creating, changing and deleting a role: each refusal's exact case, a role in use included |
| `AccountOutcomes.RestoreUndoesSoftDelete` | app/services/user.py:859-921 | a restore undoes a soft-deletion completely |
| `AccountServices.UserService.Register` | app/services/auth.py:114-181 | has the registration outcome |
| `AccountServices.UserService.GetDefaultRole` | app/db/repositories/user.py:36-52 | the default role: the first live system "app_user", else the first live one, else a new one |
| `AccountServices.UserService.CreateAdminUser` | app/services/user.py:690-721 | has the outcome of inviting an admin, the user-name refusal included |
| `AccountServices.UserService.UpdateSelfEmail` | app/services/user.py:490-520 | has the outcome of a self-service change: six refusals in the code's order; otherwise the address becomes pending, the user unverified, and a token goes to it |
| `AccountServices.UserService.AdminChangeEmail` | app/services/user.py:623-659 | has the outcome of an administrative change |
| `AccountServices.UserService.VerifyEmail` | app/services/account.py:84-126 | has the verification outcome: the token is consumed whatever follows |
| `AccountServices.UserService.AddRow` | app/db/models/user.py:80-87 | the primary key and the unique indexes refuse a row iff some row, live or deleted, has its id, an address or its user name |
| `AccountServices.UserService.UpdateEmails` | app/db/models/user.py:80-87 | the unique indexes refuse an update iff another row has the address |
| `Rooms.MembersDetermineTable` | app/websockets/manager.py:52-56 | without empty rooms the members of all rooms determine the table |
| `Rooms.AfterSendIff` | app/websockets/manager.py:115-120 | after a send nobody has left but the user, and the user only if it failed |
| `Rooms.ConnectionManager.Connect` | app/websockets/manager.py:58-76 | the user is in the room over this socket, no other room changes, no empty room is stored |
| `Rooms.ConnectionManager.Disconnect` | app/websockets/manager.py:78-97 | the user leaves the room, an emptied room goes |
| `Rooms.ConnectionManager.SendToUser` | app/websockets/manager.py:99-120 | one transmission iff the user is there; a failure removes the user from this room |
| `Rooms.ConnectionManager.BroadcastToRoom` | app/websockets/manager.py:122-159 | each non-excluded member gets exactly one transmission, exactly the failed ones are removed, other rooms are untouched |
| `Rooms.ConnectionManager.SendToUserAllRooms` | app/websockets/manager.py:176-204 | exactly the rooms that held the user are reached, once each; failures leave exactly those rooms |
| `Rooms.ConnectionManager.GetRoomUsers` | app/websockets/manager.py:161-174 | the members, each once |
| `StorageUrl.UnquoteQuote` | app/storage/backends.py:173-175 | percent-decoding undoes encoding, in any context |
| `StorageUrlTheorems.NoStraddling` | app/services/user.py:82-84 | the managed prefix cannot overlap itself, so a match in front of the key ends in front of it |
| `StorageUrlTheorems.DescentEndsInFront` | app/services/user.py:75-80 | no text begins with its own decoding followed by "/u…" behind slashes only: the descent that rules out a base path reaching into the key |
| `StorageUrlTheorems.BaseStaysInFront` | app/services/user.py:75-80 | stripping the base path, however it is percent-encoded, never reaches into the key |
| `StorageUrlTheorems.StorageKeyRoundTripIff` | app/services/user.py:64-96 | extracting from the built URL returns the key iff what precedes it does not contain the managed prefix |
| `StorageUrlTheorems.StorageKeyRoundTrip` | app/storage/backends.py:166-177 | in particular for every base path and bucket whose decoded text does not contain it |
| `StorageUrlTheorems.ExtractionIff` | app/services/user.py:64-96 | for any avatar text: a bare key is its own answer; otherwise the key begins where the prefix first occurs in the decoded path behind the base, and there is none if it does not occur, whatever the bucket is called |
| `StorageUrlTheorems.ConfigIsTrimmed` | app/services/user.py:77-78 | the base path and the bucket are compared without the slashes at their ends |
| `StorageUrlTheorems.DropParamsIs` | app/services/user.py:71-78 | parameters are what follows the first semicolon of the last path segment |
| `StorageUrlTheorems.BuiltUrlReads` | app/storage/backends.py:166-177 | there is a URL iff scheme and host are configured, and its decoded path is base path, bucket and key |
| `StorageUrlTheorems.UnquoteIs` | app/services/user.py:75 | an escape is a percent sign and two hexadecimal digits of either case, anything else stands for itself |
| `StorageUrl.QuoteCharIs` | app/storage/backends.py:173-175 | letters, digits and -./_~ stand for themselves, any other byte becomes an escape with capital digits |

## Left out

- SQL, sessions, commit and rollback, and interleaving inside a service call: each call is one step.
- JWT signatures, bcrypt's length limit, Fernet, pyotp, QR codes, base64 and JSON text: ideal or
  abstract here.
- The WebSocket endpoint's message loop, S3, SMTP, the task queue, rate limiting, middleware, health,
  metrics, logging, i18n, cookies, audit writing.
- The SQLAdmin panel, scripts and migrations, which write rows behind the services' back, and
  `delete_account`, a hard delete.
- The cached user response (`get_by_id_cached`): a second read-through cache of the same shape.
- Profile, avatar and password updates, changes of user names, search and statistics: they touch none
  of the state above, apart from the columns that `EditUser` covers.
- The `last_used_at` column and the default users of the seeding job.
- OpenAPI parts other than paths and `components/schemas` are carried along unread, as in the code; a
  reference from them to a pruned schema is not considered.
- OpenApiBuilder.FilterItem: an interpreter may stop iterating "x-surfaces" once every allowed surface
  has been met, and so pass over a list or dict behind them; here such an item always raises.
- Order of dict entries: dicts are maps, so the projection is stated up to order.
- StorageUrlTheorems.StorageKeyRoundTripIff: works on the bytes of the texts; splitting a URL into
  scheme, host and path is the library's.
- AccountServices.UserService.EmailExists: Unicode case folding beyond ASCII is not modelled.
- KeysetTheorems.ExactlyOnceUnderInterference: assumes that a row's creation time never changes, as
  nothing in the code writes it.
- Single-row administration (activate, deactivate, assign a role, delete, restore, resend) and the
  role calls of the account core are transitions with outcomes only; the role calls that touch the cache are methods
  in `PermissionServices`.
- Rooms.ConnectionManager.BroadcastToRoom: the failing sockets are those whose send raises RuntimeError,
  the one exception the code catches. Any other leaves its loop, with the remaining members untried and
  the failed ones still in the room.
- SecondFactor.EverySessionHasItsFactor: the codes generated at one moment are distinct.
