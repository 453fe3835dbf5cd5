# Todo API: token revocation, authentication and the todo/person services

This project models, in Dafny, the core of a Spring Boot todo application with
JWT authentication. Paths below are relative to the repository root, and
every source file lives under `src/main/java/se/lexicon/todo_app/`.

The core has two parts.

**Authentication.**
- `TokenBlacklistStorage` is an in-process registry with two maps: revoked tokens mapped to their expiry instant, and usernames mapped to a token-version counter.
- `isBlacklisted` purges the expired entries before it looks a token up. `blacklistToken` records the token, bumps the version and purges after. `getUserTokenVersion` reads the version map and purges nothing.
- `JwtTokenUtil` issues a signed JSON Web Token (RFC 7519) for a user. The token carries the subject, the roles, the user's current version, and the issue and expiry dates. A token validates only while these all match the user's current state.
- `AuthServiceImpl.logout` revokes the presented token and bumps the user's version.
- `JwtRequestFilter.doFilterInternal` runs on each request. It turns away revoked tokens, unparsable tokens and stale-version tokens with a 401. Otherwise it puts the loaded user into the security context.
- The central property: one logout with any of a user's tokens invalidates every older token of that user, not only the one revoked (`AuthService.LogoutRevokesEveryOlderToken`, `JwtToken.RevocationInvalidatesOlderTokens`).

**Todos and persons.**
- The upload checks of `TodoController` are modelled, along with `TodoDto.withAttachments`.
- The conversions and the `create`/`findById`/`update` operations of `TodoServiceImpl` are modelled.
- So are the entities with their in-place updates: a todo's attachment set, an attachment's back-reference, and a user's roles.
- The registration and update operations of `PersonServiceImpl` are modelled.
- The Bean Validation constraints of the request records are modelled as predicates.

How the model is built:
- **Mutable objects are classes.** This covers the storage component, the services, the entities and the security context. Their methods are proved against functions over the old state (`RemoveExpired`, `Bumped`, `Added`, `Removed`, `UpdatedAttachmentKeys`). Lemmas about those functions carry the properties.
- **Pure code is pure functions.** JWT handling, the filter's decision and the request records are functions over datatypes.
- **Signing and parsing are opaque.** A `Codec` pairs a signer with a partial parser. `Sound(codec)` states that a signed token parses back to its claims.
- **The clock is a parameter.** Time is an explicit `now` parameter in milliseconds.
- **Repositories are maps,** keyed by id (or by username for accounts).

Three behaviours of the code are easy to misread, and the model follows the code in each:
- **Expired tokens at logout.** The JWT library rejects an expired token during parsing. So a logout with an expired token fails at the subject lookup, outside the try block, and the library's exception propagates unwrapped. The version is not bumped.
- **Expired accounts at login.** The user-details service does not pass a user's `expired` flag on, so an expired account is not refused at login.
- **A null username at revocation.** `blacklistToken` with a null username stores the token and then fails in `compute`. Logout then reports "Invalid token: null".

## Model

| member | source | states |
|---|---|---|
| TokenBlacklist.RemoveExpired | src/main/java/se/lexicon/todo_app/security/TokenBlacklistStorage.java:39-42 | the purge keeps exactly the entries whose expiry is not strictly before `now`, each with its expiry unchanged |
| TokenBlacklist.RemoveExpiredIdempotent | src/main/java/se/lexicon/todo_app/security/TokenBlacklistStorage.java:39-42 | two purges at the same instant equal one |
| TokenBlacklist.RemovedCount | src/main/java/se/lexicon/todo_app/security/TokenBlacklistStorage.java:44-53 | the map shrinks by exactly the number of expired entries |
| TokenBlacklist.PurgeInsertPurge | src/main/java/se/lexicon/todo_app/security/TokenBlacklistStorage.java:21-33 | purging before an insertion and again after it equals one purge after the insertion |
| TokenBlacklist.RecordedTokenIsBlacklisted | src/main/java/se/lexicon/todo_app/security/TokenBlacklistStorage.java:21-33 | a token just recorded is reported blacklisted at the same instant exactly when its expiry is not before that instant |
| TokenBlacklist.NextVersion | src/main/java/se/lexicon/todo_app/security/TokenBlacklistStorage.java:24-26 | an absent counter becomes 1; an existing one strictly grows |
| TokenBlacklist.Bumped | src/main/java/se/lexicon/todo_app/security/TokenBlacklistStorage.java:24-26 | after `compute` the version map holds the old usernames plus the bumped one |
| TokenBlacklist.BumpedVersion | src/main/java/se/lexicon/todo_app/security/TokenBlacklistStorage.java:24-26 | a bump raises that user's version by exactly 1 (absent counts as 0), leaves every other user's version alone, never lowers any counter and keeps all counters at least 1 |
| TokenBlacklist.VersionZeroIffNeverRevoked | src/main/java/se/lexicon/todo_app/security/TokenBlacklistStorage.java:35-37 | with every stored counter at least 1, version 0 means exactly that the user was never revoked |
| TokenBlacklist.AddInt32 | src/main/java/se/lexicon/todo_app/security/TokenBlacklistStorage.java:25 | Java `int` addition equals mathematical addition whenever the sum fits in 32 bits |
| TokenBlacklist.AsWrittenVersionWraps | src/main/java/se/lexicon/todo_app/security/TokenBlacklistStorage.java:24-26 | with Java `int` arithmetic, the counter after 2^31-1 wraps to -2^31 and goes down |
| TokenBlacklist.AsWrittenAgreesBelowWrap | src/main/java/se/lexicon/todo_app/security/TokenBlacklistStorage.java:24-26 | below the wrap point, the 32-bit counter equals the unbounded one |
| TokenBlacklist.TokenBlacklistStorage.constructor | src/main/java/se/lexicon/todo_app/security/TokenBlacklistStorage.java:14-15 | both maps start empty |
| TokenBlacklist.TokenBlacklistStorage.BlacklistToken | src/main/java/se/lexicon/todo_app/security/TokenBlacklistStorage.java:21-28 | with a username: the token is recorded with its expiry, the user's version is bumped and the map purged. With a null username: only the insertion happens and the call fails. Counters never decrease in either case |
| TokenBlacklist.TokenBlacklistStorage.IsBlacklisted | src/main/java/se/lexicon/todo_app/security/TokenBlacklistStorage.java:30-33 | the map is purged; the result is true exactly when the token was stored with an expiry not before `now`, even if no scheduled sweep has run |
| TokenBlacklist.TokenBlacklistStorage.GetUserTokenVersion | src/main/java/se/lexicon/todo_app/security/TokenBlacklistStorage.java:35-37 | 0 for a user never revoked, and (under the invariant) only for such a user |
| TokenBlacklist.TokenBlacklistStorage.RemoveExpiredTokens | src/main/java/se/lexicon/todo_app/security/TokenBlacklistStorage.java:39-42 | the revoked-token map becomes its purge at `now` |
| TokenBlacklist.TokenBlacklistStorage.CleanupExpiredTokens | src/main/java/se/lexicon/todo_app/security/TokenBlacklistStorage.java:44-53 | the count reported is the number of expired entries; the versions are untouched |
| SpringSecurity.BearerToken | src/main/java/se/lexicon/todo_app/service/AuthServiceImpl.java:73-77 | a token is extracted exactly when the header is present and starts with the case-sensitive "Bearer "; the header is then that prefix followed by the token |
| SpringSecurity.BearerTokenRoundTrip | src/main/java/se/lexicon/todo_app/security/JwtRequestFilter.java:45-50 | the token placed after "Bearer " is the token extracted |
| SpringSecurity.LowerCaseSchemeRejected | src/main/java/se/lexicon/todo_app/security/JwtRequestFilter.java:45 | a header starting "bearer " yields no token |
| JwtToken.GetClaimsFromToken | src/main/java/se/lexicon/todo_app/security/JwtTokenUtil.java:80-86 | parsing succeeds exactly for a token that verifies and whose expiry is not before `now`, and yields its claims. A token that does not verify fails as invalid; one that verifies but expired strictly before `now` fails as expired |
| JwtToken.GeneratedClaims | src/main/java/se/lexicon/todo_app/security/JwtTokenUtil.java:40-51 | the claims carry the username as subject, the authorities in order, and the user's current version. The issue date is `now` truncated to the second, and the expiry is `now` plus the lifetime, truncated to the second |
| JwtToken.GenerateToken | src/main/java/se/lexicon/todo_app/security/JwtTokenUtil.java:40-54 | with a sound codec, the token parses back to exactly the built claims |
| JwtToken.GetUsernameFromToken | src/main/java/se/lexicon/todo_app/security/JwtTokenUtil.java:72-74 | succeeds exactly when parsing does, with the parsed token's subject (possibly null); otherwise it fails with the parser's error |
| JwtToken.GetExpirationDateFromToken | src/main/java/se/lexicon/todo_app/security/JwtTokenUtil.java:76-78 | succeeds exactly when parsing does, with the parsed token's expiry, which is then not before `now`; otherwise it fails with the parser's error |
| JwtToken.IsTokenExpired | src/main/java/se/lexicon/todo_app/security/JwtTokenUtil.java:93-96 | succeeds exactly when the parse does, and then is true exactly when the expiry is strictly before `now`; otherwise it fails with the parser's error |
| JwtToken.ValidateToken | src/main/java/se/lexicon/todo_app/security/JwtTokenUtil.java:56-70 | true exactly when the token parses, its subject is the user, it has not expired, it has a version claim, and that claim equals the user's current version; every failure yields false and nothing is thrown |
| JwtToken.TokenExpiryBounds | src/main/java/se/lexicon/todo_app/security/JwtTokenUtil.java:50-51 | the written expiry is issue time plus `expiration` seconds, truncated to the second; a lifetime of at least one second gives a token that is live when issued |
| JwtToken.GeneratedTokenRoundTrip | src/main/java/se/lexicon/todo_app/security/JwtTokenUtil.java:40-54 | before its expiry, a generated token parses back to the claims built from the user: subject, roles in order, current version. Its subject and expiry getters return the username and the built expiry |
| JwtToken.IsTokenExpiredNeverTrue | src/main/java/se/lexicon/todo_app/security/JwtTokenUtil.java:63-64 | once the library's own expiry check has passed, `isTokenExpired` at the same instant cannot report true |
| JwtToken.GeneratedTokenValidates | src/main/java/se/lexicon/todo_app/security/JwtTokenUtil.java:56-70 | a freshly generated token validates for its user until it expires |
| JwtToken.VersionChangeInvalidates | src/main/java/se/lexicon/todo_app/security/JwtTokenUtil.java:61-66 | once the user's version has changed, a token that validated before never validates again |
| JwtToken.RevocationInvalidatesOlderTokens | src/main/java/se/lexicon/todo_app/security/JwtTokenUtil.java:45-66 | after one bump of a user's version, every token issued to that user before it fails validation, blacklisted or not; a token issued after the bump validates |
| AuthService.LoginResponse | src/main/java/se/lexicon/todo_app/service/AuthServiceImpl.java:54-68 | "User not found" exactly when no person is linked to the username. Otherwise the response carries the generated token, the type "Bearer", the username, the person's name and e-mail, and the authorities in order |
| AuthService.Login | src/main/java/se/lexicon/todo_app/service/AuthServiceImpl.java:45-69 | refused credentials fail and leave the context alone; otherwise the context holds the user with its authorities and the response is `LoginResponse` |
| AuthService.LogoutMessage | src/main/java/se/lexicon/todo_app/service/AuthServiceImpl.java:71-91 | errors raised inside the try block carry messages that start "Invalid token: " |
| AuthService.LogoutResult | src/main/java/se/lexicon/todo_app/service/AuthServiceImpl.java:71-91 | a logout succeeds exactly for a bearer token that parses, is not in the purged revoked-token map and names a subject. A token that fails to parse fails with the parser's own error, before the revoked tokens are consulted |
| AuthService.Logout | src/main/java/se/lexicon/todo_app/service/AuthServiceImpl.java:71-91 | the outcome follows the header check, the subject lookup (outside the try block), the blacklist check and the null-username failure. On success the token is recorded with its own expiry, its own subject's version is bumped and the context cleared. A failure leaves versions and context as they were |
| AuthService.LogoutNeedsBearerHeader | src/main/java/se/lexicon/todo_app/service/AuthServiceImpl.java:73-75 | a missing header, or one without the case-sensitive "Bearer ", fails with "Invalid authorization header" |
| AuthService.SecondLogoutFails | src/main/java/se/lexicon/todo_app/service/AuthServiceImpl.java:80-90 | a second logout with the same header fails: as already invalidated while the token lives, and with the library's expired-token error once the expiry has passed |
| AuthService.LogoutRevokesEveryOlderToken | src/main/java/se/lexicon/todo_app/service/AuthServiceImpl.java:85-87 | after a logout, any other token issued earlier to the same user gets 401 "Invalid token version" at the filter, though it is not blacklisted |
| AuthService.RevocationScenario | src/main/java/se/lexicon/todo_app/service/AuthServiceImpl.java:71-91 | running logout then the filter: the logout succeeds, the same token is then refused as revoked and an older token as a stale version |
| JwtRequestFilter.Filter | src/main/java/se/lexicon/todo_app/security/JwtRequestFilter.java:39-80 | every error is a 401 with "Token has been revoked", "Invalid token" or "Invalid token version", and leaves the context as it was. "Token has been revoked" is sent exactly for a bearer token still in the purged revoked-token map. An authentication already present is never replaced |
| JwtRequestFilter.DoFilterInternal | src/main/java/se/lexicon/todo_app/security/JwtRequestFilter.java:39-80 | the step-by-step filter yields the outcome and context of the decision function; the revoked-token map is purged only when a bearer token is present |
| JwtRequestFilter.NoBearerPassesThrough | src/main/java/se/lexicon/todo_app/security/JwtRequestFilter.java:45-48 | with no header, or one without "Bearer ", the chain continues and the context is unchanged |
| JwtRequestFilter.RevokedTokenRefused | src/main/java/se/lexicon/todo_app/security/JwtRequestFilter.java:53-56 | a revoked, unexpired token gets 401 "Token has been revoked" whatever the parser would say |
| JwtRequestFilter.FilterEndsOneWay | src/main/java/se/lexicon/todo_app/security/JwtRequestFilter.java:45-80 | every error is a 401 and leaves the context alone. The context changes only from empty with the chain continuing, and only to the token subject's loaded user with exactly its authorities, for a token that validates against that user and is not revoked |
| JwtRequestFilter.ReentryGuard | src/main/java/se/lexicon/todo_app/security/JwtRequestFilter.java:60 | with an authentication present, a parsable unrevoked token is neither loaded nor validated and the chain continues |
| JwtRequestFilter.UnparsableTokenRefused | src/main/java/se/lexicon/todo_app/security/JwtRequestFilter.java:74-77 | an unrevoked token that fails to parse gets 401 "Invalid token" |
| JwtRequestFilter.IssuedTokenAuthenticates | src/main/java/se/lexicon/todo_app/security/JwtRequestFilter.java:60-68 | an issued token, unrevoked and unexpired, authenticates its user with exactly the user's authorities |
| JwtRequestFilter.StaleTokenRefused | src/main/java/se/lexicon/todo_app/security/JwtRequestFilter.java:63-71 | after the user's version is bumped, a token issued before gets 401 "Invalid token version" |
| JwtRequestFilter.RevokedTokenNeverAuthenticates | src/main/java/se/lexicon/todo_app/security/JwtRequestFilter.java:53-58 | a token revoked until its own expiry always gets an error: revoked before the expiry, unparsable after it |
| Entity.Attachment.constructor | src/main/java/se/lexicon/todo_app/entity/Attachment.java:31-35 | the given name, type and bytes, no id, no todo |
| Entity.Attachment.SetTodo | src/main/java/se/lexicon/todo_app/entity/Attachment.java:37-44 | the back-reference becomes `todo`; a non-null todo's set gets this attachment added (set semantics); `setTodo(null)` touches no set |
| Entity.Added | src/main/java/se/lexicon/todo_app/entity/Todo.java:80 | `HashSet.add`: the key set gains the attachment's key, existing members stay, and the attachment is stored only when nothing equal was there |
| Entity.Removed | src/main/java/se/lexicon/todo_app/entity/Todo.java:85 | `HashSet.remove`: the attachment's key goes, every other member stays |
| Entity.AddEqualTwiceKeepsOne | src/main/java/se/lexicon/todo_app/entity/Attachment.java:14 | an attachment with the same id, name, type and bytes as one just added, whatever todo it points at, adds nothing: the set keeps the first one and grows by at most one. Removing it removes the first one |
| Entity.RemoveUndoesAdd | src/main/java/se/lexicon/todo_app/entity/Todo.java:76-87 | removing what was just added to a set without an equal member restores the set |
| Entity.WellKeyedPreserved | src/main/java/se/lexicon/todo_app/entity/Todo.java:76-87 | add and remove keep every member stored under its own equality key |
| Entity.Todo.constructor | src/main/java/se/lexicon/todo_app/entity/Todo.java:49-54 | the four given fields, no id, person, timestamps or attachments |
| Entity.Todo.WithoutDueDate | src/main/java/se/lexicon/todo_app/entity/Todo.java:56-60 | the three given fields and no due date |
| Entity.Todo.AddAttachment | src/main/java/se/lexicon/todo_app/entity/Todo.java:76-82 | the set becomes the old set with the attachment added, so it contains the attachment and every other member stays; the attachment's todo is this todo, and the back-reference sync adds nothing more |
| Entity.Todo.RemoveAttachment | src/main/java/se/lexicon/todo_app/entity/Todo.java:84-87 | nothing equal to the attachment remains, every other member stays, and the back-reference is cleared |
| Entity.Person.constructor | src/main/java/se/lexicon/todo_app/entity/Person.java:34-37 | the given name and e-mail, no id, no account |
| Entity.User.constructor | src/main/java/se/lexicon/todo_app/entity/User.java:37-40 | the given username and password, no roles, not expired, no person |
| Entity.User.AddRole | src/main/java/se/lexicon/todo_app/entity/User.java:42-44 | the roles become the old roles plus the role |
| Entity.User.RemoveRole | src/main/java/se/lexicon/todo_app/entity/User.java:46-48 | the roles become the old roles minus the role |
| BeanValidation.TrimStart | src/main/java/se/lexicon/todo_app/dto/TodoDto.java:14 | `String.trim`'s left end: the result is a suffix that is empty or starts above U+0020, and every character dropped is at most U+0020 |
| BeanValidation.TrimEnd | src/main/java/se/lexicon/todo_app/dto/TodoDto.java:14 | `String.trim`'s right end: the result is a prefix that is empty or ends above U+0020, and every character dropped is at most U+0020 |
| BeanValidation.Trim | src/main/java/se/lexicon/todo_app/dto/TodoDto.java:14 | the trimmed string is empty exactly when every character is at most U+0020, and otherwise starts and ends above U+0020 |
| BeanValidation.NotBlankIffVisibleChar | src/main/java/se/lexicon/todo_app/dto/TodoDto.java:14 | `@NotBlank` (not null, non-empty after `trim`) holds exactly for a present string with a character above U+0020 |
| BeanValidation.UsernamePatternSubsumes | src/main/java/se/lexicon/todo_app/dto/PersonRegistrationDto.java:17-21 | a present username matching the pattern is also not blank and 4 to 50 long |
| Dto.TodoDto.WithAttachments | src/main/java/se/lexicon/todo_app/dto/TodoDto.java:37-44 | the copy carries the given list and its length (0 for null), with every other field unchanged |
| Dto.WithAttachmentsIdempotent | src/main/java/se/lexicon/todo_app/dto/TodoDto.java:37-44 | applying it twice with the same list is applying it once, and validity is unaffected |
| Dto.TodoDtoConstraints | src/main/java/se/lexicon/todo_app/dto/TodoDto.java:14-19 | a valid title is present, 2 to 100 long and holds a character above U+0020; a valid description is absent or at most 500 long |
| Dto.PasswordMatching | src/main/java/se/lexicon/todo_app/dto/PersonRegistrationDto.java:33-36 | the passwords match exactly when both are present and equal |
| Dto.RegistrationFieldConstraints | src/main/java/se/lexicon/todo_app/dto/PersonRegistrationDto.java:8-27 | valid name: present, 2 to 100 long, with a character above U+0020. Valid e-mail: present, at most 150 long, with such a character. Valid password: present, 8 to 100 long, with such a character |
| Dto.RegistrationUsernameValid | src/main/java/se/lexicon/todo_app/dto/PersonRegistrationDto.java:17-21 | a registration username is valid exactly when it has 4 to 50 characters, each from `[a-zA-Z0-9._-]` |
| Dto.LoginAcceptsRegisteredCredentials | src/main/java/se/lexicon/todo_app/dto/AuthRequestDto.java:10-17 | a login username is valid exactly when it has 4 to 50 characters from `[a-zA-Z0-9._-]`. A login password is valid exactly when it has 8 to 100 characters, one above U+0020. For the same strings, each is valid exactly when the registration form's is |
| Dto.ComplexityNotEnforced | src/main/java/se/lexicon/todo_app/dto/PersonRegistrationDto.java:23-27 | every password of 8 to 100 lower-case letters is valid for both forms, though it has no digit, capital or special character: no complexity rule applies |
| TodoService.AttachmentKeysOfMembers | src/main/java/se/lexicon/todo_app/service/TodoServiceImpl.java:69-78 | the attachments built from records are exactly one per distinct record content (the record id dropped), never more than there are records |
| TodoService.RepeatedRecordStoredOnce | src/main/java/se/lexicon/todo_app/service/TodoServiceImpl.java:128-135 | a record repeating an earlier one adds no attachment |
| TodoService.UpdatedAttachmentKeysCases | src/main/java/se/lexicon/todo_app/service/TodoServiceImpl.java:123-136 | a null or empty list keeps the attachments; a non-empty one replaces them with exactly those the records describe, all without id |
| TodoService.TodoServiceImpl.constructor | src/main/java/se/lexicon/todo_app/service/TodoServiceImpl.java:24-27 | over a person repository whose persons are stored under their own ids, the service starts with an empty todo repository and is valid: every todo is stored under its id and refers to no person or a stored one |
| TodoService.TodoServiceImpl.AddAttachmentsFrom | src/main/java/se/lexicon/todo_app/service/TodoServiceImpl.java:70-77 | the set gains exactly one new attachment per distinct record; old members stay; each new attachment points back at the todo |
| TodoService.TodoServiceImpl.Overwrite | src/main/java/se/lexicon/todo_app/service/TodoServiceImpl.java:109-136 | title, description, completion, due date and person come from the record; id and timestamps stay. Attachments are replaced only for a present, non-empty list, and are otherwise the very same set |
| TodoService.TodoServiceImpl.ConvertToDto | src/main/java/se/lexicon/todo_app/service/TodoServiceImpl.java:29-51 | the record shows the todo's fields. For a todo whose person has an id (as every stored person has), the person id is null exactly when there is no person. Its count equals the attachment count, and its list has that length with one record per attachment |
| TodoService.TodoServiceImpl.ConvertToEntity | src/main/java/se/lexicon/todo_app/service/TodoServiceImpl.java:54-81 | "Person not found" exactly for an unknown person id. Otherwise a new todo with the record's fields and person, and one attachment per distinct record (none for a null or empty list) |
| TodoService.TodoServiceImpl.Save | src/main/java/se/lexicon/todo_app/service/TodoServiceImpl.java:86 | the new todo is stored under the next id, which it now carries |
| TodoService.TodoServiceImpl.Create | src/main/java/se/lexicon/todo_app/service/TodoServiceImpl.java:83-88 | fails and saves nothing exactly for an unknown person id. Otherwise exactly one new todo built from the record is stored under a fresh id, and the result describes it |
| TodoService.TodoServiceImpl.FindById | src/main/java/se/lexicon/todo_app/service/TodoServiceImpl.java:90-95 | "Todo not found" for an absent id; otherwise the stored todo's record, whose person id is null exactly when the todo has no person |
| TodoService.TodoServiceImpl.Update | src/main/java/se/lexicon/todo_app/service/TodoServiceImpl.java:104-140 | fails with "Todo not found" for an absent id, and with "Person not found" (todo unchanged) for an unknown person id. Otherwise the fields are overwritten, the person is set or cleared, the attachments are replaced only for a non-empty list (otherwise kept as they were), and the result describes the todo |
| TodoController.ValidateFiles | src/main/java/se/lexicon/todo_app/controller/TodoController.java:114-133 | passes exactly for no file array, or at most five files each non-empty and at most 2 MiB. More than five fail on the count first; otherwise the error names the first failing file |
| TodoController.FileSizeLimit | src/main/java/se/lexicon/todo_app/controller/TodoController.java:127-129 | a file of exactly 2 097 152 bytes passes, one byte more fails, an empty file fails |
| TodoController.UploadedAttachments | src/main/java/se/lexicon/todo_app/controller/TodoController.java:136-152 | empty for no file array, else one record per file |
| TodoController.UploadedAttachmentsRoundTrip | src/main/java/se/lexicon/todo_app/controller/TodoController.java:142-147 | each record gives back its file (name, type, bytes), and has no id |
| TodoController.ConvertFilesToAttachments | src/main/java/se/lexicon/todo_app/controller/TodoController.java:136-153 | the loop builds exactly `UploadedAttachments`: empty for no file array, else one record per file in order, with a null id and the name, type and bytes copied |
| TodoController.UpdateWithoutFilesKeepsAttachments | src/main/java/se/lexicon/todo_app/controller/TodoController.java:105-108 | an update without files keeps the todo's attachments (the empty list is not null); one with files replaces them |
| TodoController.PrepareUpload | src/main/java/se/lexicon/todo_app/controller/TodoController.java:77-79 | fails exactly when the files are not acceptable; otherwise the record carries the converted list |
| TodoController.CreateTodo | src/main/java/se/lexicon/todo_app/controller/TodoController.java:72-82 | unacceptable files fail and store nothing. An unknown person id fails with "Person not found" and stores nothing. Otherwise exactly one new todo is stored under a fresh id, built from the record with the uploads as its attachments, and the result describes it |
| TodoController.UpdateTodo | src/main/java/se/lexicon/todo_app/controller/TodoController.java:97-109 | unacceptable files fail and change nothing. An absent todo fails with "Todo not found"; an unknown person id fails with "Person not found" and leaves the todo unchanged. Otherwise the record's title, description, completion, due date and person are written while id and timestamps stay; no files keep the very same attachments, files replace them with the uploads |
| PersonService.PersonServiceImpl.constructor | src/main/java/se/lexicon/todo_app/service/PersonServiceImpl.java:28-32 | the service starts with empty person and account repositories and the given password encoder |
| PersonService.PersonServiceImpl.Create | src/main/java/se/lexicon/todo_app/service/PersonServiceImpl.java:50-78 | "Email already exists" is checked before "Username already exists", and either failure saves nothing. Otherwise a new person and a new account are saved and linked both ways; the account has the encoded password and exactly the role USER. The result shows the new id with the input name and e-mail, and e-mails stay unique |
| PersonService.PersonServiceImpl.NewAccount | src/main/java/se/lexicon/todo_app/service/PersonServiceImpl.java:60-69 | a new person and a new account linked both ways, with the role USER only and not expired |
| PersonService.PersonServiceImpl.Update | src/main/java/se/lexicon/todo_app/service/PersonServiceImpl.java:80-88 | "Person not found" for an absent id; otherwise name and e-mail are overwritten, and the id and account kept |
| PersonService.PersonServiceImpl.UpdatePassword | src/main/java/se/lexicon/todo_app/service/PersonServiceImpl.java:102-110 | fails for an absent person; the account's password becomes the given string, not encoded; only the password field may change; no-op without an account |
| PersonService.PersonServiceImpl.ToggleExpired | src/main/java/se/lexicon/todo_app/service/PersonServiceImpl.java:112-120 | fails for an absent person; the account's status becomes the given one; only the status field may change; no-op without an account |
| PersonService.PersonServiceImpl.AddRole | src/main/java/se/lexicon/todo_app/service/PersonServiceImpl.java:132-140 | fails for an absent person; the account gains the role, and its password, status and person link stay (only its role set may change); no-op without an account |
| PersonService.PersonServiceImpl.RemoveRole | src/main/java/se/lexicon/todo_app/service/PersonServiceImpl.java:142-150 | fails for an absent person; the account loses the role, and its password, status and person link stay (only its role set may change); no-op without an account |

## Left out

- HMAC-SHA-512 signing, base64url encoding and key derivation from the secret (`getSigningKey`, `GenerateJwtSecret.java`) are replaced by the opaque `Codec`.
- BCrypt hashing and the `DaoAuthenticationProvider` check are external. `encode` is a given function, and the authentication manager's verdict is a parameter of `Login`.
- Concurrency is not modelled: `ConcurrentHashMap` atomicity, and the scheduled sweep running beside requests. Every operation is sequential.
- The clock is read once per modelled call, as one `now`, where the code reads it several times. `generateToken` reads it twice, `validateToken` three times (two parses and `new Date()`), `logout` four times (two parses and two purges) and `doFilterInternal` five times (a purge, a parse and the three of `validateToken`). The model therefore leaves out the outcomes of a token expiring between two of these reads:
  - at logout, a token expiring between the subject lookup and `getExpirationDateFromToken` fails inside the try block, with "Invalid token: " and the library's expiry message;
  - at the filter, a token expiring between `getUsernameFromToken` and `validateToken` gets 401 "Invalid token version";
  - `JwtToken.IsTokenExpiredNeverTrue` holds for one instant only: with a later second read, `isTokenExpired` can report true.
- Time is whole milliseconds. The purge reads `Instant.now()`, which is finer than a millisecond, while the JWT library and `isTokenExpired` compare whole-millisecond `Date`s. So in the real time strictly after a token's expiry millisecond `E` and before `E + 1`, the code has already purged the token while the parser still accepts it. The model, reading `now == E`, still keeps it. The lines below name the members whose statements hold for that millisecond only when the clock reads exactly `E`:
- TokenBlacklist.RemoveExpired: keeps an entry whose expiry equals `now`; the code drops it once the sub-millisecond clock has passed `E`.
- TokenBlacklist.RecordedTokenIsBlacklisted: reports a token recorded with expiry `now` as blacklisted; in the rest of that millisecond the code reports it as not blacklisted.
- TokenBlacklist.TokenBlacklistStorage.IsBlacklisted: answers true for a token stored with expiry equal to `now`; in the rest of that millisecond the code's purge has already removed it and answers false.
- AuthService.SecondLogoutFails: a second logout at `later == E` is stated as "already invalidated". In the rest of that millisecond the code's purge has dropped the token, so the second logout succeeds, records the token again and bumps the version once more.
- JwtRequestFilter.RevokedTokenRefused: refuses as revoked a token presented at `now == E`. In the rest of that millisecond the code has purged it, and the request proceeds to the parse and the version check, ending in "Invalid token version" for a token whose revocation bumped the version.
- JwtRequestFilter.RevokedTokenNeverAuthenticates: states an error at every instant. In the rest of the expiry millisecond the token is neither revoked nor unparsable, so a token stored without a version bump (the null-subject case) goes on down the chain.
- Spring wiring, CORS, seed data, servlet I/O and `@PreAuthorize` rules are framework configuration. The filter's outcome is a value, and `SecurityContextHolder` is one optional field.
- TodoService.TodoServiceImpl.constructor: requires every person of the repository to be stored under the id it carries, as the persons a repository returns have all been saved.
- Bean Validation is assumed to have run: the services take the records the controllers have validated with `@Valid`.
- PersonService.PersonServiceImpl.Create: requires a present username and password. Registration validation guarantees both, and the encoder's behaviour on null is not modelled.
- The `@Email` format check on the registration e-mail is not modelled.
- String lengths count characters, not UTF-16 code units.
- Repositories are maps: the query methods Spring derives, and the bulk JPQL updates of a password or status, are written as direct updates of the linked account.
- Database constraints (unique e-mail, NOT NULL columns) are enforced only at flush. The model states e-mail uniqueness as an invariant `Create` preserves, not as a database check.
- PersonService.PersonServiceImpl.Update: an update to another person's e-mail succeeds in the model and breaks e-mail uniqueness, while the unique column (`Person.java:25`) makes the code fail at commit; the database check is not modelled.
- The todo and person id counters (`nextId`) are unbounded integers; the database's `Long` identity is not bounded in the model. The 32-bit wrap of the token-version counter is the one overflow modelled (see "## Findings").
- `@PrePersist`/`@PreUpdate` timestamps are left out: a saved todo keeps the timestamps it had.
- Logging through `System.out` is left out.
- Attachment ids assigned on save are left out: an attachment's equality fields never change in the model.
- The RuntimeException `convertFilesToAttachments` throws when reading a file's bytes fails is not modelled: reads always succeed.
- A token without an expiry claim does not occur: every token this application issues has one.
- Long overflow of `expiration * 1000` and of the clock is not modelled: integers are unbounded.
- Entity.Todo.AddAttachment: does not model the null-set initialisation. A todo's set is never null in the model, as only the unused all-arguments constructor could make it so.
- The user no-argument constructor plus setters appear as the two-argument constructor.
- `findAll`, `delete`, `findByPersonId`, `findByCompleted`, `findOverdueTodos` and `findByEmail` are outside the modelled core.
- `AttachmentDto.java` and `Role.java` are not part of this model; their shapes (a four-field record, the enum USER/ADMIN) are inferred from their uses.
- `UserDetailsServiceImpl.loadUserByUsername` appears only as the map of loadable users; its unknown-user exception is the filter's "Invalid token" path.

## Findings

| source | as written | input that shows it | evidently intended | confidence | as-written member | corrected member |
|---|---|---|---|---|---|---|
| src/main/java/se/lexicon/todo_app/security/TokenBlacklistStorage.java:24-26 | the version counter is a Java `Integer` and `oldVersion + 1` wraps around | a user whose counter is 2147483647 is revoked once more: the counter becomes -2147483648, lower than before | versions only grow, so a bump never makes an old version current again | not executed | TokenBlacklist.AsWrittenVersionWraps | TokenBlacklist.BumpedVersion |
