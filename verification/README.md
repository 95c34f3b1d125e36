# User onboarding platform: the account lifecycle in Dafny

This project models the account lifecycle of the user-onboarding platform and
proves properties of that model. Users register and wait in PENDING until an
administrator approves or rejects them. Only approved users (and every admin)
may log in. The lifecycle has five parts:

- **The users table** (`UserModel.UsersTable`).
  - A class whose fields are the rows, the SERIAL sequence and a clock standing in for `NOW()`.
  - `create` and `updateStatus` are its methods; the finders are functions of its rows.
  - The table's CHECK, UNIQUE and DEFAULT constraints are datatypes plus the invariant `Schema.TableInvariant`.
- **The request handlers.**
  - Registration validates, checks for a duplicate, then inserts.
  - Login applies the role/status gate before the password comparison.
  - Token validation, approve and reject, the pending list and statistics.
  - The profile and status projections.
  - The Joi request schemas and the error-to-status middleware.
- **The approval worker.** One tick reads up to ten entries from the head of the Redis list `approval:queue`, applies APPROVE and REJECT to the table, and pops the list's head after each entry whose processing does not throw. `ApprovalWorker.ProcessApprovalQueue` is a loop proved against the pure `Tick`.
- **The seed script**: insert-if-absent of the admin and two sample users.
- **The browser side**:
  - the session store;
  - the route wrapper (token check and render decision);
  - the route table with its root redirect;
  - the registration form's ordered checks.

Foreign code is passed in as parameters:
- bcrypt's hash and compare;
- jsonwebtoken's verify;
- Joi's email-format check (`isEmail`).

The outcomes of I/O are parameters too:
- which SQL statements throw;
- the reply of the token-validation call;
- the reply of the register call.

A signed token is modelled by its claims (`AuthService.Token`).

`backend/src/routes/auth.js:66` refuses every `user` account whose status is not APPROVED, ACTIVE included: `AuthRoutes.Login` answers 403 for such an account (`AuthRoutes.ActiveUserRefused`).

## Model

| member | source | states |
|---|---|---|
| Schema.ParseStatus | backend/src/db/schema.js:19 | Only the four CHECK values PENDING, APPROVED, REJECTED, ACTIVE name a status; any other text is refused |
| Schema.ParseRole | backend/src/db/schema.js:20 | Only `user` and `admin` name a role; any other text is refused |
| Schema.StatusNameRoundTrip | backend/src/db/schema.js:19 | Reading back the stored text of every status gives that status |
| Schema.RoleNameRoundTrip | backend/src/db/schema.js:20 | Reading back the stored text of every role gives that role |
| Schema.NewRow | backend/src/db/schema.js:8-18 | An inserted row without role or status gets role user and status PENDING; approved_by and approved_at start null; created_at and updated_at are the insertion time |
| Schema.InsertKeepsInvariant | backend/src/db/schema.js:8-20 | Inserting a row with a fresh email under the next SERIAL id keeps these facts: ids below the sequence, emails unique, created_at increasing with id |
| Schema.RewriteKeepsInvariant | backend/src/db/schema.js:8-20 | Rewriting a row that keeps its id, email and created_at keeps the table invariant |
| UserModel.Select | backend/src/models/User.js:30-52 | The WHERE scan yields exactly the ids of rows satisfying the condition, ascending and without repeats |
| UserModel.SelectCountsMatching | backend/src/models/User.js:30-52 | The scan's length is the number of matching rows |
| UserModel.MatchingStep | backend/src/models/User.js:30-52 | The matching ids below n+1 are those below n, plus n when row n matches |
| UserModel.FindEmailBelow | backend/src/models/User.js:14-20 | The scan finds a row with exactly that email, or proves there is none |
| UserModel.FindByEmail | backend/src/models/User.js:14-20 | Returns the stored row (hash included) whose email equals the argument exactly; nothing exactly when no row has it |
| UserModel.FindById | backend/src/models/User.js:22-28 | Some exactly for a stored id: the row's id, email, names, status, role, created_at and approved_at; the type has no hash |
| UserModel.FindAllPending | backend/src/models/User.js:30-36 | Every element is the projection of a PENDING row and every PENDING row appears; created_at strictly ascending |
| UserModel.PendingRowsOrdered | backend/src/models/User.js:32 | Rows listed in ascending id order are listed in ascending created_at order |
| UserModel.FindAllPendingCount | backend/src/models/User.js:30-36 | The pending list has one element per PENDING row |
| UserModel.FindByRole | backend/src/models/User.js:47-53 | Exactly the rows of that role, projected to id, email and names, with no duplicates |
| UserModel.Stamp | backend/src/models/User.js:40 | Sets status, approved_by and approved_at and nothing else of the row |
| UserModel.InsertIfAbsent | backend/src/db/seed.js:17-22 | ON CONFLICT DO NOTHING: a present email leaves rows and clock as they were; otherwise the new row lands under the next id; the SERIAL value is consumed either way; the email is present afterwards |
| UserModel.InsertIfAbsentKeepsInvariant | backend/src/db/schema.js:8-20 | The insert-if-absent keeps the table invariant |
| UserModel.FindByEmailAfterInsert | backend/src/models/User.js:4-20 | After inserting a row, looking its email up finds exactly that row |
| UserModel.FindByEmailAfterRewrite | backend/src/models/User.js:14-20 | Rewriting a row with its email unchanged keeps it the row found by that email |
| UserModel.UsersTable.constructor | backend/src/db/schema.js:7-21 | The empty table, sequence at 1 |
| UserModel.UsersTable.Create | backend/src/models/User.js:4-12 | Inserts a PENDING `user` row stamped with the clock and returns it without the hash; a present email raises the 23505 unique violation and changes no row |
| UserModel.UsersTable.InsertIgnoringConflict | backend/src/db/seed.js:17-22 | The table moves exactly as `InsertIfAbsent` says and keeps its invariant |
| UserModel.UsersTable.UpdateStatus | backend/src/models/User.js:38-45 | For any target status, whatever the current one, stamps status, approved_by and approved_at on that row only and returns id, email, status, approved_at; an unknown id changes nothing and returns nothing |
| AuthService.HashPassword | backend/src/services/authService.js:7-12 | Succeeds exactly for passwords of at least 8 characters, with bcrypt's hash; otherwise the fixed error |
| AuthService.GenerateToken | backend/src/services/authService.js:18-28 | The token's claims are exactly the row's id, email, role and status |
| Validation.Lookup | backend/src/services/validationService.js:3-13 | The value of a key is one stored under it; absent means no entry has that key |
| Validation.LookupAt | backend/src/services/validationService.js:3-13 | A parsed body holds each key at most once, and the one entry with a key is the value found for that key |
| Validation.KeyErrors | backend/src/services/validationService.js:4-7 | Every error of one key names that key |
| Validation.KeyErrorsEmptyIffOk | backend/src/services/validationService.js:4-7 | A key has no error exactly when it is a present, non-empty string passing each of its rules |
| Validation.UnknownKeys | backend/src/services/validationService.js:3-13 | No "is not allowed" error exactly when every key of the body is in the schema |
| Validation.SchemaErrorsEmptyIff | backend/src/services/validationService.js:3-13 | The schema's keys produce no error exactly when each passes its rules |
| Validation.SchemaErrorsReportEveryKey | backend/src/services/validationService.js:17 | With abortEarly false, every error of every key is reported, not just the first |
| Validation.KeyOkInBody | backend/src/services/validationService.js:4-12 | What one key's rules demand, stated on the body's string value |
| Validation.UnknownKeysEmptyIff | backend/src/services/validationService.js:3-13 | No unknown-key error exactly when the body uses only the schema's keys |
| Validation.AllErrorsEmptyIff | backend/src/services/validationService.js:17 | No error at all exactly when the schema's keys pass and the body uses no other key |
| Validation.InRegistrationSchema | backend/src/services/validationService.js:3-8 | The registration schema names exactly email, password, firstName and lastName |
| Validation.InLoginSchema | backend/src/services/validationService.js:10-13 | The login schema names exactly email and password |
| Validation.RegistrationFieldErrorsEmptyIff | backend/src/services/validationService.js:3-8 | The registration keys pass exactly when: email is present and email-format; password has at least 8 characters; both names are alphanumeric with 2 to 50 characters |
| Validation.RegistrationErrorsEmptyIff | backend/src/services/validationService.js:3-8 | The registration schema collects no error exactly on acceptable bodies (no extra keys) |
| Validation.LoginErrorsEmptyIff | backend/src/services/validationService.js:10-13 | The login schema collects no error exactly on acceptable bodies |
| Validation.ValidateRegistration | backend/src/services/validationService.js:16-18 | Accepts exactly the acceptable bodies and returns their four strings (password length at least 8); otherwise a non-empty list holding every error of every key |
| Validation.ValidateLogin | backend/src/services/validationService.js:20-22 | Accepts exactly bodies with an email-format email and a present password of any length; otherwise the first error only |
| Validation.MessageNamesKey | backend/src/routes/auth.js:16 | Every reported message begins with the offending key in quotes |
| Validation.Messages | backend/src/routes/auth.js:16 | One message per detail, in order |
| Validation.LoginPasswordHasNoMinimum | backend/src/services/validationService.js:12 | A one-character password passes the login schema |
| Validation.ShortPasswordRefused | backend/src/services/validationService.js:5 | A registration password under 8 characters yields the min-length error |
| ErrorHandler.HandleError | backend/src/middleware/errorHandler.js:1-26 | ValidationError alone gives 400 with its details; every other error gives a non-empty error string; the code is 400, 401, 409, 500 or the error's own statusCode; an unnamed 23505 is 409 |
| ErrorHandler.NameBeatsCode | backend/src/middleware/errorHandler.js:4-21 | Rules apply in order: for a ValidationError or UnauthorizedError the code and statusCode do not matter |
| ErrorHandler.ForeignKeyViolation | backend/src/middleware/errorHandler.js:19-21 | Code 23503 gives 400 "Invalid reference" |
| ErrorHandler.Fallback | backend/src/middleware/errorHandler.js:23-25 | Otherwise statusCode when set and non-zero, else 500, with the message or "Internal server error" |
| ErrorHandler.EmailConflictIs409 | backend/src/middleware/errorHandler.js:15-17 | The users' email unique violation reaches the client as 409 |
| AuthRoutes.Register | backend/src/routes/auth.js:10-49 | Invalid body: 400 with every message and the table untouched. Present email: 409 and the table untouched. Otherwise exactly one new PENDING `user` row with bcrypt's hash at the SERIAL value drawn, findable by its email; the sequence and the clock step once; and 201 with id, email and PENDING |
| AuthRoutes.Login | backend/src/routes/auth.js:53-96 | 400 exactly for an invalid body. 403 exactly for a found `user` not APPROVED, carrying its status. 401 for an unknown email or, past the gate, a wrong password. 200 only with a matching password, the row's token and its projection |
| AuthRoutes.AdminNeverNotApproved | backend/src/routes/auth.js:66 | An admin account is never refused for its status |
| AuthRoutes.ActiveUserRefused | backend/src/routes/auth.js:66-71 | An ACTIVE `user` gets 403, whatever the password comparison would say |
| AuthRoutes.Split | backend/src/routes/auth.js:102 | `split(' ')` yields at least one piece, none containing a space |
| AuthRoutes.JoinSplit | backend/src/routes/auth.js:102 | Joining the pieces gives the header back |
| AuthRoutes.SplitJoin | backend/src/routes/auth.js:102 | Pieces without spaces, joined, split back into the same pieces |
| AuthRoutes.SplitNoSeparator | backend/src/routes/auth.js:102 | A text without spaces is one piece |
| AuthRoutes.SplitPrefix | backend/src/routes/auth.js:102 | A space-free word followed by a space splits off as the first piece |
| AuthRoutes.BearerToken | backend/src/routes/auth.js:102 | A token found is non-empty and contains no space |
| AuthRoutes.BearerTokenOf | backend/src/routes/auth.js:102 | The token is the second word whatever the first; the scheme is not checked |
| AuthRoutes.NoSpaceNoToken | backend/src/routes/auth.js:102-105 | A header without a space carries no token |
| AuthRoutes.ValidateToken | backend/src/routes/auth.js:100-108 | 401 `{valid:false}` exactly without a token; otherwise 200 where `valid` holds exactly when verification yields claims, which are returned |
| AuthRoutes.IssuedTokenValidates | backend/src/routes/auth.js:100-108 | `Bearer <token>` with a verifiable token validates with its claims |
| AdminRoutes.Decide | backend/src/routes/admin.js:26-97 | 404 exactly for an unknown id and 400 exactly for a non-PENDING user, naming its status, both changing nothing. 200 exactly for a PENDING user: that row stamped with the target status, the acting admin and the clock, answered with id, email and new status |
| AdminRoutes.DecideKeepsInvariant | backend/src/routes/admin.js:43 | Approve and reject keep the table invariant |
| AdminRoutes.SecondDecisionRefused | backend/src/routes/admin.js:36-40 | After a successful approve or reject, another one on that user is 400 and changes nothing |
| AdminRoutes.DecideTouchesOnlyTarget | backend/src/models/User.js:40 | Other rows, and the target's email, hash, names, role and created_at, are unchanged |
| AdminRoutes.ApproverNeedNotExist | backend/src/db/schema.js:15 | approved_by has no foreign key: an approver id absent from the table is recorded as given |
| AdminRoutes.Approve | backend/src/routes/admin.js:26-59 | The response and the new table are exactly `Decide` with target APPROVED |
| AdminRoutes.Reject | backend/src/routes/admin.js:63-97 | The response and the new table are exactly `Decide` with target REJECTED; the reason plays no part |
| AdminRoutes.Settle | backend/src/routes/admin.js:31-55 | The shared steps findById, status guard and updateStatus end exactly as `Decide` says |
| AdminRoutes.PendingUsers | backend/src/routes/admin.js:12-22 | 200 with `total` equal to the list's length and to the number of PENDING rows; the list holds exactly the PENDING rows, oldest first (ascending created_at) |
| AdminRoutes.StatsOf | backend/src/routes/admin.js:101-113 | stats.pending is the number of PENDING rows |
| AdminRoutes.StatsAgreeWithPendingList | backend/src/routes/admin.js:14-16 | The stats count equals the pending list's total |
| AdminRoutes.ApprovedLeavesPending | backend/src/routes/admin.js:43 | A successful approval lowers the pending count by one |
| UserRoutes.Profile | backend/src/routes/user.js:12-34 | 404 exactly when the caller's id is not stored; otherwise the stored row's projection |
| UserRoutes.StatusOf | backend/src/routes/user.js:38-48 | Status and approved_at read from the table; a missing row makes `user.status` throw, and the error handler answers 500 |
| UserRoutes.AnswersIgnoreTokenClaims | backend/src/routes/user.js:14 | Only the token's id matters: its email, role and status do not |
| UserRoutes.StaleTokenSeesFreshStatus | backend/src/routes/user.js:40-44 | A token still saying PENDING sees APPROVED once the row is approved |
| UserRoutes.VanishedUserStatusIs500 | backend/src/routes/user.js:14-17 | For a vanished user, profile is 404 and status is 500 |
| ApprovalWorker.RedisList.constructor | backend/src/workers/approvalWorker.js:16 | The list `approval:queue` holds the given entries |
| ApprovalWorker.RedisList.LRange | backend/src/workers/approvalWorker.js:23 | LRANGE 0 stop: the first stop+1 elements, or all when fewer |
| ApprovalWorker.RedisList.LPop | backend/src/workers/approvalWorker.js:45 | LPOP removes the head, if any |
| ApprovalWorker.Pop | backend/src/workers/approvalWorker.js:45 | A pop removes exactly the head of a non-empty list |
| ApprovalWorker.ApplyUpdate | backend/src/workers/approvalWorker.js:29-42 | APPROVE stamps status, approved_by and approved_at. REJECT sets status and approved_by and keeps approved_at. Other actions, absent or unknown ids, and every other row are untouched |
| ApprovalWorker.ApplyUpdateKeepsInvariant | backend/src/workers/approvalWorker.js:31-40 | The worker's UPDATEs keep the table invariant |
| ApprovalWorker.RunUpdate | backend/src/workers/approvalWorker.js:29-42 | The UPDATE of one entry moves the rows and the clock exactly as `ApplyUpdate` says and keeps the invariant |
| ApprovalWorker.RunBatch | backend/src/workers/approvalWorker.js:25-50 | The rest of a tick keeps the set of ids and never moves the clock back |
| ApprovalWorker.Batch | backend/src/workers/approvalWorker.js:17-23 | The batch is the list's first min(10, length) entries |
| ApprovalWorker.Pops | backend/src/workers/approvalWorker.js:45-49 | At most one pop per remaining batch entry |
| ApprovalWorker.RunBatchPopsPrefix | backend/src/workers/approvalWorker.js:45 | The list ends as itself minus as many head elements as there were successful entries |
| ApprovalWorker.RunBatchRowsIgnoreList | backend/src/workers/approvalWorker.js:23-25 | What a tick writes depends on the batch read, not on the list's later contents |
| ApprovalWorker.TickPopsAtMostTen | backend/src/workers/approvalWorker.js:17-23 | A tick removes at most 10 entries, all from the head |
| ApprovalWorker.TickReadsOnlyTen | backend/src/workers/approvalWorker.js:23 | Entries past the tenth change nothing in the table |
| ApprovalWorker.MalformedHeadBlocks | backend/src/workers/approvalWorker.js:26 | A malformed head ends each tick at once, so the list never moves again |
| ApprovalWorker.LaterEntryWins | backend/src/workers/approvalWorker.js:25 | Entries apply head to tail: APPROVE then REJECT of one user leaves REJECTED, over the approval time |
| ApprovalWorker.WorkerAndApiDisagree | backend/src/workers/approvalWorker.js:36-39 | The worker's REJECT leaves approved_at null where the API's reject stamps it. The worker approves a REJECTED user where the API answers 400 |
| ApprovalWorker.ProcessApprovalQueue | backend/src/workers/approvalWorker.js:20-54 | One tick leaves the table and the list exactly as `Tick` says, keeps the invariant and leaves the sequence alone |
| ApprovalWorker.HeadPopLosesFailedEntry | backend/src/workers/approvalWorker.js:45 | With a failing entry ahead of a successful one, the failed entry is popped and the applied one stays |
| ApprovalWorker.Consumed | backend/src/workers/approvalWorker.js:26 | The walk stops at the first malformed entry or at the batch's end |
| ApprovalWorker.IntendedKeepsFailures | backend/src/workers/approvalWorker.js:44-48 | The corrected walk leaves the entries processed so far, then the failed ones, then the unread ones |
| ApprovalWorker.TickIntendedKeepsExactlyFailures | backend/src/workers/approvalWorker.js:44-48 | The corrected tick leaves exactly the failed entries, in order, ahead of those it did not reach |
| ApprovalWorker.IntendedWritesSameRows | backend/src/workers/approvalWorker.js:29-42 | The correction writes the table exactly as the original does |
| ApprovalWorker.IntendedKeepsFailedEntry | backend/src/workers/approvalWorker.js:44-48 | On the failing-then-succeeding list, the corrected tick keeps the failed entry only |
| Seed.Statements | backend/src/db/seed.js:14-54 | The admin (role admin, APPROVED) first, then John Doe and Jane Smith (role user, PENDING) |
| Seed.InsertAll | backend/src/db/seed.js:17-55 | Running the INSERTs in order keeps the table invariant |
| Seed.InsertAllSnoc | backend/src/db/seed.js:40-55 | One more statement extends the run by one insert-if-absent |
| Seed.InsertAllKeepsRows | backend/src/db/seed.js:20 | A row already present is never touched, and no row disappears |
| Seed.InsertAllTakesEmails | backend/src/db/seed.js:17-55 | Afterwards every email of the statements is present |
| Seed.InsertAllPresentIsNoOp | backend/src/db/seed.js:20 | When every email is present, rows and clock stay; only the sequence advances |
| Seed.Completed | backend/src/db/seed.js:59-61 | The statements before the first failing one all ran |
| Seed.RunStatement | backend/src/db/seed.js:17-54 | One statement moves the table from i to i+1 statements applied |
| Seed.RunStatements | backend/src/db/seed.js:14-61 | The statements in order, up to the first that throws: the table ends as those before it leave it, and the exit status is 1 exactly when one threw |
| Seed.Seed | backend/src/db/seed.js:9-65 | The table ends as the statements before the first failure left it; exit status 1 exactly when a statement failed |
| Seed.SeedCreatesAccounts | backend/src/db/seed.js:14-54 | Earlier rows are kept and the three emails exist. If the admin email was absent, its row sits at the first SERIAL value drawn, with role admin and status APPROVED. If john@example.com or jane@example.com was absent, its row sits at the second or third SERIAL value, with role user and status PENDING |
| Seed.RowInsertedAt | backend/src/db/seed.js:17-55 | The statement at position k, when its email was absent and unlike every earlier statement's, leaves its row at the k-th SERIAL value after the current one, with its own email, role and status |
| Seed.InsertAllStep | backend/src/db/seed.js:17-55 | Running the statements is running the first one, then the rest |
| Seed.SeedIdempotent | backend/src/db/seed.js:17-55 | A second run gives the same rows and clock as one run, whatever the new hashes; only the sequence moves on |
| AuthStore.Store.constructor | frontend/src/stores/authStore.js:7-9 | Not authenticated, user and token null |
| AuthStore.Store.SetAuth | frontend/src/stores/authStore.js:11-14 | Authenticated with the token and user; the token is written to storage |
| AuthStore.Store.Logout | frontend/src/stores/authStore.js:16-19 | Everything cleared, the stored token removed |
| AuthStore.Store.LoadFromStorage | frontend/src/stores/authStore.js:21-26 | A truthy stored token becomes the token and authenticates; otherwise nothing changes; the user stays |
| AuthStore.Store.Persisted | frontend/src/stores/authStore.js:30 | Only the token is persisted, and when authenticated it is the stored one |
| AuthStore.ReloadAfterLogin | frontend/src/stores/authStore.js:11-26 | A fresh store loading from storage after a login is authenticated with a null user |
| AuthStore.LogoutThenLoad | frontend/src/stores/authStore.js:16-26 | After a logout, loading from storage does not authenticate |
| ProtectedRoute.Render | frontend/src/components/ProtectedRoute.jsx:32-44 | A placeholder exactly while loading. /login exactly without authentication or user. / exactly when a truthy required role differs from the user's. Otherwise the children |
| ProtectedRoute.NoRoleAdmitsAnyUser | frontend/src/components/ProtectedRoute.jsx:40-44 | Without a required role every authenticated user passes |
| ProtectedRoute.Guard.constructor | frontend/src/components/ProtectedRoute.jsx:8 | The wrapper starts out loading |
| ProtectedRoute.Guard.VerifyAuth | frontend/src/components/ProtectedRoute.jsx:10-27 | No call without a truthy token. An invalid verdict or failed call logs out, after which the render is /login. A valid verdict changes nothing. Loading always ends |
| App.RootRedirect | frontend/src/App.jsx:36-48 | /login exactly when not authenticated; /admin exactly for an authenticated admin; /dashboard for every other authenticated state, a null user included |
| App.Route | frontend/src/App.jsx:14-52 | The admin pages show exactly for an authenticated admin and /dashboard exactly for an authenticated `user`; an unmatched path redirects to / |
| App.EveryPathSettles | frontend/src/App.jsx:14-52 | With the roles the server issues, every path reaches a page within three redirects: admins the admin dashboard, users the user dashboard, others the login page. On /login and /register only the settling is stated, not which page is reached |
| App.UnknownRoleLoops | frontend/src/App.jsx:27-48 | With a role that is neither admin nor user, the empty role included, / and /dashboard redirect to each other forever |
| RegisterPage.WithField | frontend/src/pages/Register.jsx:18-23 | The named field takes the value; every other field keeps its own |
| RegisterPage.FirstProblem | frontend/src/pages/Register.jsx:32-54 | None exactly when all four checks pass; otherwise the first failure in the page's order |
| RegisterPage.FailureMessage | frontend/src/pages/Register.jsx:68-72 | The server's error when truthy, else the fixed fallback; never empty |
| RegisterPage.Page.constructor | frontend/src/pages/Register.jsx:6-15 | Empty form, no messages, not loading |
| RegisterPage.Page.HandleChange | frontend/src/pages/Register.jsx:18-23 | Only the named field changes |
| RegisterPage.Page.HandleSubmit | frontend/src/pages/Register.jsx:25-76 | The API is called exactly when no check fails. The first failure is shown otherwise. A success shows the approval message; a failure shows the server's error or the fallback. Loading is false on every path |
| RegisterPage.PageChecksWeakerThanServer | frontend/src/pages/Register.jsx:32-54 | The first name Jo-Ann, which is not alphanumeric, passes the page's checks and is refused by the server's schema |
| RegisterPage.PageEnforcesServerPasswordMinimum | frontend/src/pages/Register.jsx:50-54 | A form the page lets through has a password of at least 8 characters and names of at least 2 |
| Lifecycle.RegistrationBodyAcceptable | backend/src/services/validationService.js:3-8 | A body with an email-format email, an 8-character password and two alphanumeric names is accepted |
| Lifecycle.LoginOfUser | backend/src/routes/auth.js:53-96 | Logging in as a stored `user` account: 403 with its status until it is APPROVED; then, with a matching password, 200 with a token for that row |
| Lifecycle.RegisterApproveLogin | backend/src/routes/auth.js:10-96 | On a fresh table: register 201; login 403 while PENDING; approve 200; login 200 with claims (1, email, user, APPROVED); registering again 409 |

## Left out

- Database, Redis and server plumbing are not modelled: pools, connections, listening, shutdown and the migration runner. The table and the list are in-memory state, and each request or tick runs alone (no concurrency, no `setInterval` polling).
- `NOW()` is a counter that advances on every row write; real timestamps and the 24-hour token expiry are not modelled.
- bcrypt and jsonwebtoken are foreign functions passed in. `generateRefreshToken` is never called by the routes and is not modelled.
- A token is modelled by its claims. The `iat` and `exp` fields that `jwt.verify` adds are not modelled.
- The middleware of backend/src/middleware/auth.js is not part of this model. The admin and user handlers take the principal that middleware attaches and do not check it themselves.
- The `audit_logs` and SQL `approval_queue` tables are never read or written by the code modelled, and are not modelled. The worker's queue is the Redis list.
- VARCHAR length limits are not modelled.
- Route parameters are integers. A non-numeric `:userId` would make Postgres throw (answered 500 by the error handler); that path is not modelled.
- A worker entry whose userId is not a number is covered by the set of failing positions, not by its contents.
- Redis failures (LRANGE, LPOP) are not modelled. Neither is a throwing LPOP after a successful UPDATE.
- JSON values are only "string" or "not a string". A body is the object `JSON.parse` returns, one entry per key; how the parser settles a key written twice in the raw text (the last one wins) is not modelled. Joi's email check is a parameter. Lengths count characters, not UTF-16 code units.
- zustand's persist middleware (rehydration), localStorage shared across tabs, React Router's case-insensitive matching and trailing slashes, the 3-second navigation timer after registration, and all rendering are left out.
- The admin routes never enqueue anything (the notes at backend/src/routes/admin.js:45-46 and :83-84 are comments only). So the worker and the API are two independent writers, and no member links them beyond `ApprovalWorker.WorkerAndApiDisagree`.
- ApprovalWorker.ProcessApprovalQueue: an APPROVE or REJECT whose UPDATE throws is given by its batch position. The cause is not modelled (connection loss, a bad id).
- Seed.Seed: bcrypt hashes are parameters. The `finally` that closes the pool is not modelled.

## Findings

| source | as written | input that shows it | evidently intended | confidence | as-written member | corrected member |
|---|---|---|---|---|---|---|
| backend/src/workers/approvalWorker.js:45 | after each entry whose UPDATE does not throw, the list's head is popped, whichever entry that is | list [A, B] where A's UPDATE throws and B's succeeds: the tick pops A and leaves B, which is applied again on the next tick | a successful entry removes itself and a failed one stays for retry ("re-queue on error") | high, not executed | ApprovalWorker.HeadPopLosesFailedEntry | ApprovalWorker.TickIntendedKeepsExactlyFailures |
