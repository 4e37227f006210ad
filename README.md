# ServiceOTP in Dafny

A model of the core of ServiceOTP, a small Java HTTP service that issues one-time codes to confirm user operations. It covers three pieces:

- **The OTP code store and lifecycle.** The codes table and its data-access object, the `OtpCode` entity, and `OtpService`. `OtpService` issues a code of the configured length. It has a read-only validator and a consuming validator, and both expire codes lazily. It also has the sweeper's bulk expiry.
- **The step-up perform/confirm flow.** This is `UserOperationService` plus the decision sequences of `UserOperationController`. A perform request issues and sends a code for an operation. A confirm request validates the code without consuming it, then completes the operation the stored code was issued for, dispatching on 101/102/103.
- **The access gate and the user registry.** This is `AuthFilter`, `UserService`, `UserDaoImpl` and `AdminService`: bearer-token filtering, registration, login, the administrator query and deletes.

Modelling choices:

- **Tables.** Each table is a class holding its rows in table order, plus the next identity value. Each data-access method is a method on that class. Its `ensures` ties the new rows to a function of the old rows that says what the SQL statement's `WHERE`/`SET` clauses do. Lemmas state the interface's promises about those functions.
- **Services.** Service methods take the tables as parameters and state their effect through the same functions.
- **Exceptions.** Java exceptions become the `Err` case of a `Result`, with the exception's class and message.
- **Outside inputs.** These are all parameters:
  - the clock (`now`, in seconds);
  - the random digits (`draws`);
  - the password hash and its check (`hash`, `matches`);
  - each new bearer token (`token`);
  - the outcome of a notification sender (`deliveryFailure`).
- **The operations table** is a map from operation number to operation.
- **HTTP exchange.** The exchange records the request method, the Content-Type and Authorization headers, the request body's top-level JSON members, the attributes the filter sets, and every reply sent, in order.

`findByCode` reads the first row of a `SELECT ... WHERE code = ?` that has no `ORDER BY`. Codes are not unique, so the database may return any matching row. The model fixes that choice to the first matching row in insertion order. Every statement about "the code's row" refers to that row.

Two behaviours of the code worth knowing:

- A perform request for an operation number missing from the operations table does store the new ACTIVE code. The operation lookup runs only after the insert, and it then fails with a `NullPointerException`. The answer is therefore 500, not a dedicated "unknown operation" error, and a code is persisted (src/main/java/otpservice/service/OtpService.java:63-65; `UserOperationController.PerformUnknownOperation`).
- `markAsUsed` has no status guard, so a validate → sweep → complete sequence leaves the row USED rather than EXPIRED (src/main/java/otpservice/dao/impl/OtpCodeDaoImpl.java:104-122 and src/main/java/otpservice/service/UserOperationService.java:96; `OtpService.SweepBetweenValidateAndComplete`).

## Model

| member | source | states |
|---|---|---|
| Model.ChannelValueOf | src/main/java/otpservice/api/UserOperationController.java:75-79 | A channel name converts exactly when it is one of EMAIL, SMS, TELEGRAM, FILE, matched case-sensitively, and each converts to the constant of that name. Any other name is an IllegalArgumentException. |
| Model.Int32 | src/main/java/otpservice/model/OtpCode.java:110-113 | Java `int` arithmetic: the result lies in [-2^31, 2^31), is congruent to the input modulo 2^32, and equals the input when that is already in range. |
| Model.AsInt | src/main/java/otpservice/api/UserOperationController.java:71 | `asInt()` yields a Java `int`. A number is narrowed modulo 2^32 (unchanged within range). Integer text within range is its value. Any other text, including integer text outside the range, reads 0. |
| Model.AsIntOfAsText | src/main/java/otpservice/api/UserOperationController.java:71 | A number and its decimal text read alike exactly within the `int` range. Outside it the number wraps while the text reads 0. |
| OtpCodeEntity.OtpCode.constructor | src/main/java/otpservice/model/OtpCode.java:34-46 | The full constructor stores each of its six arguments unchanged. |
| OtpCodeEntity.OtpCode.SetId | src/main/java/otpservice/model/OtpCode.java:52-54 | Sets the id; the other five fields keep their values. |
| OtpCodeEntity.OtpCode.SetUserId | src/main/java/otpservice/model/OtpCode.java:60-62 | Sets the user id; the other five fields keep their values. |
| OtpCodeEntity.OtpCode.SetOperationNumber | src/main/java/otpservice/model/OtpCode.java:68-70 | Sets the operation number; the other five fields keep their values. |
| OtpCodeEntity.OtpCode.SetCode | src/main/java/otpservice/model/OtpCode.java:76-78 | Sets the code text; the other five fields keep their values. |
| OtpCodeEntity.OtpCode.SetStatus | src/main/java/otpservice/model/OtpCode.java:84-86 | Sets the status; the other five fields keep their values. |
| OtpCodeEntity.OtpCode.SetCreatedAt | src/main/java/otpservice/model/OtpCode.java:92-94 | Sets the creation time; the other five fields keep their values. |
| OtpCodeEntity.OtpCode.HashCode | src/main/java/otpservice/model/OtpCode.java:110-113 | The hash is a Java `int` (within [-2^31, 2^31)), folded 31·h + e over the six field hashes. |
| OtpCodeEntity.EqualsIsFieldEquality | src/main/java/otpservice/model/OtpCode.java:96-108 | `equals` holds exactly for a non-null OtpCode whose six fields are all equal. |
| OtpCodeEntity.EqualsReflexiveAndTyped | src/main/java/otpservice/model/OtpCode.java:98-99 | `equals` is true against itself, and false against null and against an object of another class. |
| OtpCodeEntity.EqualsSymmetric | src/main/java/otpservice/model/OtpCode.java:96-108 | `equals` between two codes is symmetric. |
| OtpCodeEntity.EqualsImpliesSameHash | src/main/java/otpservice/model/OtpCode.java:96-113 | Equal codes have equal hash codes. |
| OtpCodeDao.FirstIndexOfCode | src/main/java/otpservice/dao/impl/OtpCodeDaoImpl.java:66-82 | Finds the index of a row holding the code, with no earlier row holding it. It finds none exactly when no row holds the code. |
| OtpCodeDao.FindByCodeContract | src/main/java/otpservice/dao/OtpCodeDao.java:18-23 | `findByCode` returns a stored row with that code, or nothing exactly when no row has it. |
| OtpCodeDao.FirstIndexStable | src/main/java/otpservice/dao/impl/OtpCodeDaoImpl.java:29-32 | The two status updates never move which row `findByCode` returns. |
| OtpCodeDao.MarkedUsed | src/main/java/otpservice/dao/impl/OtpCodeDaoImpl.java:29-30 | The USED update changes only the status column. |
| OtpCodeDao.ExpiredBefore | src/main/java/otpservice/dao/impl/OtpCodeDaoImpl.java:31-32 | The expiry update changes only the status column. |
| OtpCodeDao.FindAllByUserContract | src/main/java/otpservice/dao/OtpCodeDao.java:25-30 | `findAllByUser` lists exactly the rows of that user. |
| OtpCodeDao.MarkAsUsedContract | src/main/java/otpservice/dao/OtpCodeDao.java:32-36 | The row with that id becomes USED whatever its status. Other rows are unchanged, and an unknown id changes nothing. |
| OtpCodeDao.MarkAsUsedOverridesExpired | src/main/java/otpservice/dao/impl/OtpCodeDaoImpl.java:104-109 | An EXPIRED row given to `markAsUsed` becomes USED. |
| OtpCodeDao.ExpireContract | src/main/java/otpservice/dao/impl/OtpCodeDaoImpl.java:117-122 | Exactly the ACTIVE rows created before `now - ttl` become EXPIRED; every other row is unchanged. |
| OtpCodeDao.ExpireMatchesInterface | src/main/java/otpservice/dao/OtpCodeDao.java:38-42 | Every code with `createdAt + ttl < now` ends EXPIRED, except a USED one, which stays USED. |
| OtpCodeDao.ExpireIdempotent | src/main/java/otpservice/dao/impl/OtpCodeDaoImpl.java:31-32 | Repeating the bulk expiry at the same instant changes nothing. |
| OtpCodeDao.DeleteAllByUserContract | src/main/java/otpservice/dao/OtpCodeDao.java:44-48 | Deletion keeps exactly the rows of other users, and none of that user's rows remains. |
| OtpCodeDao.UpdatesNeverActivate | src/main/java/otpservice/dao/impl/OtpCodeDaoImpl.java:23-34 | No update or delete produces an ACTIVE row that was not already stored as it is. |
| OtpCodeDao.CodeTable.constructor | src/main/java/otpservice/dao/impl/OtpCodeDaoImpl.java:20 | The table starts empty, with identity 1 next. |
| OtpCodeDao.CodeTable.Save | src/main/java/otpservice/dao/impl/OtpCodeDaoImpl.java:37-63 | Inserts exactly one row with the next id. `createdAt` is stamped with now only when it is absent. The generated id is written back into the object, whose other fields are unchanged. |
| OtpCodeDao.CodeTable.FindByCode | src/main/java/otpservice/dao/impl/OtpCodeDaoImpl.java:66-82 | Returns a stored row with that code, or nothing exactly when no row has it. |
| OtpCodeDao.CodeTable.FindAllByUser | src/main/java/otpservice/dao/impl/OtpCodeDaoImpl.java:85-101 | The result-set loop collects exactly the user's rows, in table order. |
| OtpCodeDao.CodeTable.MarkAsUsed | src/main/java/otpservice/dao/impl/OtpCodeDaoImpl.java:104-114 | The table becomes the USED update of the old table. |
| OtpCodeDao.CodeTable.MarkAsExpiredOlderThan | src/main/java/otpservice/dao/impl/OtpCodeDaoImpl.java:117-128 | The table becomes the expiry update with threshold `now - ttl`. |
| OtpCodeDao.CodeTable.DeleteAllByUserId | src/main/java/otpservice/dao/impl/OtpCodeDaoImpl.java:131-141 | The table keeps exactly the other users' rows, in order. |
| UserDao.WithPasswordContract | src/main/java/otpservice/dao/impl/UserDaoImpl.java:38-39 | The password update rewrites only `password_hash`, and only on the rows with that id. |
| UserDao.NonAdminListing | src/main/java/otpservice/dao/impl/UserDaoImpl.java:31-33 | The listing holds exactly the non-ADMIN users. Without an admin it is the whole table. |
| UserDao.DeleteContract | src/main/java/otpservice/dao/impl/UserDaoImpl.java:36-37 | Deletion keeps exactly the users with other ids, leaves no user with that id, and changes nothing when none matched. |
| UserDao.UserTable.constructor | src/main/java/otpservice/dao/impl/UserDaoImpl.java:20 | The table starts empty, with identity 1 next. |
| UserDao.UserTable.Create | src/main/java/otpservice/dao/impl/UserDaoImpl.java:42-63 | Inserts exactly one row with the next id and returns that id. |
| UserDao.UserTable.Save | src/main/java/otpservice/dao/impl/UserDaoImpl.java:66-82 | Succeeds with one affected row exactly when a user has that id, and then updates only its password hash. Otherwise it fails with a RuntimeException and the table is unchanged. |
| UserDao.UserTable.FindByUsername | src/main/java/otpservice/dao/impl/UserDaoImpl.java:85-101 | Returns a user with that name, or nothing exactly when there is none. |
| UserDao.UserTable.FindById | src/main/java/otpservice/dao/impl/UserDaoImpl.java:104-120 | Returns the user with that id, or nothing exactly when there is none. |
| UserDao.UserTable.FindAllUsersWithoutAdmins | src/main/java/otpservice/dao/impl/UserDaoImpl.java:123-137 | The result-set loop collects exactly the non-ADMIN users, in table order. |
| UserDao.UserTable.AdminExists | src/main/java/otpservice/dao/impl/UserDaoImpl.java:140-151 | True if and only if some user has role ADMIN. |
| UserDao.UserTable.Delete | src/main/java/otpservice/dao/impl/UserDaoImpl.java:154-164 | Removes the rows with that id and keeps the others. A missing id is not an error. |
| OtpService.DigitCodeShape | src/main/java/otpservice/service/OtpService.java:44-52 | The generated code has exactly the configured length, and every character is a decimal digit. |
| OtpService.GenerateOtp | src/main/java/otpservice/service/OtpService.java:43-67 | A negative length fails and stores nothing. Otherwise exactly one ACTIVE row is appended with the caller's user and operation, the digit code and now, and no existing row changes. The operation lookup runs after the insert: an unknown operation fails with the row stored, a known one returns the code. |
| OtpService.SendOtpToUser | src/main/java/otpservice/service/OtpService.java:79-93 | The code is issued and stored before the user lookup, so an unknown user leaves it stored. The outcome is `SendOutcome`. |
| OtpService.SendOutcomeCases | src/main/java/otpservice/service/OtpService.java:80-90 | Delivery happens exactly when issuing succeeded, the user exists and the sender did not fail. It goes to that user, with the issued code and operation. An unknown user gives "User not found". A sender's exception is passed on unchanged. An IllegalArgumentException comes exactly from an unknown user or from a sender that raised one. |
| OtpService.ValidateOtpAndMark | src/main/java/otpservice/service/OtpService.java:98-122 | Answers whether the code's row is ACTIVE and `now <= createdAt + ttl`. If yes, it marks that row USED. If no, it changes nothing, except that an ACTIVE code past its window triggers the bulk expiry at `now - ttl`. |
| OtpService.ValidateOtp | src/main/java/otpservice/service/OtpService.java:127-151 | Same answer as the consuming validator. It never consumes, changes nothing on true, and runs the bulk expiry only for an ACTIVE code past its window. |
| OtpService.MarkExpiredOtps | src/main/java/otpservice/service/OtpService.java:156-161 | Runs the bulk expiry with the TTL read at call time. |
| OtpService.IssuedCodeUsable | src/main/java/otpservice/service/OtpService.java:55-63 | A fresh code no older row shares is accepted exactly within its window. When an older row shares the value, that older row is the one judged. |
| OtpService.LazyExpiryExpiresRejected | src/main/java/otpservice/service/OtpService.java:110-116 | The lazy-expiry branch expires the very row it rejected (`now > createdAt + ttl` is `createdAt < now - ttl`). The code is never accepted again. |
| OtpService.SweptCodeRejected | src/main/java/otpservice/service/OtpService.java:156-160 | After a sweep that caught it, the code's row reads EXPIRED, and no later validation accepts it or changes anything. |
| OtpService.ConsumedCodeRejected | src/main/java/otpservice/service/OtpService.java:118-121 | After the consuming validator accepts a code, every later validation of that code answers false and changes nothing. |
| OtpService.SweepBetweenValidateAndComplete | src/main/java/otpservice/dao/impl/OtpCodeDaoImpl.java:104-122 | Validate, then sweep past the window, then `markAsUsed` leaves the row USED rather than EXPIRED. |
| OtpService.ValidationNeverActivates | src/main/java/otpservice/service/OtpService.java:98-151 | Neither validator creates an ACTIVE row. |
| UserOperationService.SendReport | src/main/java/otpservice/service/UserOperationService.java:132-150 | Succeeds with "success" exactly when `reportType` is present; otherwise it is the missing-parameter IllegalArgumentException. |
| UserOperationService.MakeTransfer | src/main/java/otpservice/service/UserOperationService.java:152-169 | Returns "failed" exactly when `amount` is present; otherwise it is the missing-parameter IllegalArgumentException. It never reports success. |
| UserOperationService.UpdatePassword | src/main/java/otpservice/service/UserOperationService.java:111-128 | A missing `password` is an IllegalArgumentException and changes nothing. Otherwise the user's password hash becomes `hash` of the password text and the answer is "success". |
| UserOperationService.Dispatch | src/main/java/otpservice/service/UserOperationService.java:82-94 | Only 101, 102 and 103 reach a handler; every other number takes the default branch. |
| UserOperationService.ConfirmOperation | src/main/java/otpservice/service/UserOperationService.java:51-55 | Issues and sends the code as `sendOtpToUser` does. It answers nothing on success and rethrows its exception. |
| UserOperationService.ValidateCode | src/main/java/otpservice/service/UserOperationService.java:57-62 | The non-consuming validator's answer and effect. |
| UserOperationService.CompleteOperation | src/main/java/otpservice/service/UserOperationService.java:64-109 | Binds the operation and the user from the stored code, and fails with a NullPointerException when any of them is missing. The code is marked USED unless the handler threw. An unknown number first sends 401 "Unknown operation number". The answer carries the number, the name, the owner's username and the result ("failed" when no handler result exists). |
| UserOperationService.RunHandler | src/main/java/otpservice/service/UserOperationService.java:82-94 | 101, 102 and 103 run their handlers; only 101 with a password changes a user (the owner's hash). Any other number sends 401 "Unknown operation number" and runs no handler. |
| UserOperationService.CompletionOutcomes | src/main/java/otpservice/service/UserOperationService.java:82-107 | "success" exactly for 101 with `password` or 102 with `reportType`. 103 is always "failed". The code stays unconsumed exactly when the handler's required member is missing. |
| UserOperationService.CompletionBoundToStoredCode | src/main/java/otpservice/service/UserOperationService.java:65-75 | A completed answer names the stored code's operation, its name and the owner's username. Only the owner's password can change. Every failure is a NullPointerException that changes nothing. |
| UserOperationService.CompletionConsumesOnce | src/main/java/otpservice/service/UserOperationService.java:96-107 | After a consuming completion the code's row reads USED and no validation accepts it again. After a handler threw, the codes are unchanged. |
| UserOperationController.Gate | src/main/java/otpservice/api/UserOperationController.java:55-63 | The body is read only for the expected method (case-insensitive) with a JSON content type. |
| UserOperationController.FaultReply | src/main/java/otpservice/api/UserOperationController.java:83-88 | IllegalArgumentException gives 400 with its message; every other exception gives 500. |
| UserOperationController.PerformOperation | src/main/java/otpservice/api/UserOperationController.java:54-89 | Sends exactly the reply `Performed` gives, and leaves the code rows `Performed` gives. The code's owner is the filter's `userId` attribute. |
| UserOperationController.PerformOutcomes | src/main/java/otpservice/api/UserOperationController.java:54-89 | The status is one of 202, 400, 405, 415 and 500, and 202 carries no body. A code is stored only after the method, content type, body and channel pass, and then for the filter's user. A 202 always stored one. |
| UserOperationController.PerformBadRequest | src/main/java/otpservice/api/UserOperationController.java:75-84 | An unknown channel gives 400 and stores nothing. An unknown user gives 400 "User not found" with the new code stored. A sender's IllegalArgumentException gives 400 with its message, the code stored. Every 400 is one of the three. |
| UserOperationController.PerformReadsOperationNumberAsInt | src/main/java/otpservice/api/UserOperationController.java:71 | The operation number is read as a Java `int`. A number and its decimal text make the same request within range. A number outside the range makes the request for its 32-bit wrap-around, and text outside it makes the request for operation 0. |
| UserOperationController.PerformUnknownOperation | src/main/java/otpservice/service/OtpService.java:63-65 | An unknown operation number stores the code, then answers 500. |
| UserOperationController.ConfirmOperation | src/main/java/otpservice/api/UserOperationController.java:91-130 | Sends exactly the replies `Confirmed` gives, and leaves the tables `Confirmed` gives. Completion runs only after the non-consuming validator accepts, and the caller's attributes play no part. |
| UserOperationController.ConfirmCode | src/main/java/otpservice/api/UserOperationController.java:116-129 | Once the code is read: a code the validator rejects gives 400 "Invalid or expired code"; an accepted one is completed, answering 200 with the completion or the error reply of its exception. Replies and tables are those `CodeConfirmed` gives. |
| UserOperationController.ConfirmNeedsUsableCode | src/main/java/otpservice/api/UserOperationController.java:116-122 | A code the validator rejects gives 400 "Invalid or expired code". No user changes, and no row becomes ACTIVE. |
| UserOperationController.ConfirmReplayRejected | src/main/java/otpservice/api/UserOperationController.java:116-122 | After a confirm answered 200 and consumed its code, the same request at any later time answers 400 "Invalid or expired code" and changes nothing. |
| AuthFilter.AuthorizeCases | src/main/java/otpservice/api/AuthFilter.java:45-81 | Admits exactly a "Bearer "-prefixed header whose token is known and whose user's role ordinal is at least the required one. Denials are 401 or 403, and 403 comes only after the header and the token passed, so 401 takes precedence. |
| AuthFilter.RolePolicy | src/main/java/otpservice/api/AuthFilter.java:68-72 | A USER route admits every known token. An ADMIN route admits only administrators. |
| AuthFilter.IssuedTokenAdmits | src/main/java/otpservice/api/AuthFilter.java:52-59 | "Bearer " followed by a token just issued resolves to its user (the token is the text after seven characters). |
| AuthFilter.LowerCaseSchemeRefused | src/main/java/otpservice/api/AuthFilter.java:46-51 | The prefix check is case-sensitive: "bearer <token>" gets 401 even for a known token. |
| AuthFilter.DoFilter | src/main/java/otpservice/api/AuthFilter.java:45-81 | A denial sends its error, leaves the attributes alone and does not call the chain. An admission sets `user` and `userId` and calls the chain exactly once. |
| UserService.RejectionCases | src/main/java/otpservice/service/UserService.java:26-33 | A taken username is refused with IllegalArgumentException whatever the role. A second ADMIN is refused with IllegalStateException only for a free username. Everything else is accepted. |
| UserService.RegisterKeepsRegistry | src/main/java/otpservice/service/UserService.java:25-39 | Every accepted registration keeps usernames unique and at most one ADMIN. |
| UserService.Register | src/main/java/otpservice/service/UserService.java:25-39 | A refusal creates nothing. Otherwise exactly one user is appended, with the next id, the username, `hash(password)`, the email and the role. |
| UserService.AdminExists | src/main/java/otpservice/service/UserService.java:45-49 | True if and only if some user has role ADMIN. |
| UserService.AuthenticateCases | src/main/java/otpservice/service/UserService.java:55-68 | With unique usernames, authentication succeeds exactly for an existing user whose hash matches the password, and yields that user. |
| UserService.Login | src/main/java/otpservice/service/UserService.java:55-68 | An unknown user and a wrong password give the same IllegalArgumentException and issue no token. Success returns the token, now bound to that user. |
| UserService.DeleteUser | src/main/java/otpservice/service/UserService.java:78-81 | Removes the user's row only. |
| AdminService.UpdateOtpConfig | src/main/java/otpservice/service/AdminService.java:25-30 | Stores id 1 with exactly the given length and TTL, with no range check. |
| AdminService.GetAllUsersWithoutAdmins | src/main/java/otpservice/service/AdminService.java:32-34 | Exactly the non-ADMIN users, as the data-access object lists them. |
| AdminService.DeleteUserAndCodes | src/main/java/otpservice/service/AdminService.java:36-40 | The user's codes are deleted, then the user. |
| AdminService.DeleteUserAndCodesLeavesNoTrace | src/main/java/otpservice/service/AdminService.java:36-39 | No code of that user and no user with that id remain; every other code and user is kept; every remaining code still has its owner. |
| AdminService.DeleteUserAloneOrphansCodes | src/main/java/otpservice/service/UserService.java:78-81 | `deleteUser` alone can leave codes whose owner is gone. |

## Left out

- JDBC plumbing:
  - Connections, statements and result-set mapping are left out. Each table is a sequence of rows with the statement's `WHERE`/`SET` meaning.
  - `SQLException` and its wrapping into `RuntimeException` are left out.
  - The "zero rows affected" error of the two inserts cannot occur in the model.
- OtpCodeDao.CodeTable.FindByCode: with duplicate codes the source may return any matching row. The model always returns the first in insertion order. `OtpService.ConsumedCodeRejected` relies on this: with duplicates, a database could answer a repeated lookup with another ACTIVE row.
- The clock: each validator reads `now` once, whereas the source reads the clock again after computing the expiry. Times are whole seconds.
- OtpCodeEntity.OtpCode.HashCode: the status constant's hash (an identity hash in Java) is replaced by its ordinal. `LocalDateTime` is an integer whose hash is taken as a `long`'s. Equal objects still get equal hashes, but the numbers differ from Java's.
- The no-argument `OtpCode` constructor, the getters, `toString` and `mapRow` are left out. A stored row is a `CodeRow` value.
- Saving an `OtpCode` with a null user id, code or status is left out. Those fields are never absent in the model.
- The `User` entity is a value. `create` returns the generated id instead of writing it into the object.
- Notification delivery: the senders (e-mail, file, SMS, Telegram) are reduced to their outcome. This is the `deliveryFailure` parameter, which is either no failure or the exception the sender raised, passed on unchanged. That covers the e-mail and file senders' RuntimeException, the e-mail configuration's IllegalStateException, and the file sender's invalid-path IllegalArgumentException from `Paths.get` on the username. Which exception a given user and channel provoke is not modelled.
- UserOperationService.CompleteOperation: the handlers' `Thread.sleep` and the `InterruptedException` it may raise are left out.
- Logging is left out.
- UserOperationService.UpdatePassword: `findValue` searches nested JSON, but the model has only top-level members, so it agrees with `get`. A member present only in a nested object is not modelled.
- JSON parsing: the body is either absent (unreadable, or not a JSON object; every such body leads to 500) or a map of top-level members. `asInt` and `asText` cover numbers, strings, booleans and null. Nested objects and arrays as member values, fractional numbers, and `asInt` on non-integer text (modelled as 0) are simplified. Leading or trailing blanks are not trimmed, and decimal or exponent text, which Jackson reads through `double`, reads 0.
- HTTP transport: sending a second response on an exchange that already answered is recorded as a second reply. What the HTTP server then does with it is not modelled. This happens after the 401 "Unknown operation number".
- `getAllOperations`, `getConfig`, `findById`/`findAllWithoutAdmins` in `UserService`, the controllers outside the two step-up endpoints, the route table and the application's start-up are not part of this model.
- `OtpConfigDao` and `TokenManager` are not part of this model. They appear as the one stored configuration row and a token-to-user map.
- `PasswordEncoder` is not part of this model. It appears as the `hash` and `matches` parameters.
- Concurrency: the scheduler thread is not modelled. A sweep is a `MarkExpiredOtps` step that can sit between any two calls.
