# auth_todo_updated — authorization and session decisions, in Dafny

A model of the decision layer of a FastAPI to-do service with accounts, sharing and an admin console:

- who may call which route (bearer token, access-token type, admin role);
- how the task routes change the database (list, create, update, soft delete, share);
- how the admin routes page through users, build the task overview from a join, search it, and force-delete with an audit entry;
- how accounts are registered and authenticated, and how tokens are issued, refreshed and checked.

The database is the `Storage.Store` class. Its fields are four tables held as sequences (`users`, `todos`, `shares`, `auditLogs`), and each route that writes is a module-level method that takes the store as a parameter and updates its fields in place. Every such method keeps `store.Valid()` (the store holds a `Storage.WellFormed` database) and is specified by a `...Step` function from the database before the request to the response and the database after it. The lemmas about those step functions state:

- the order in which errors are raised;
- that a refused request changes nothing;
- what exactly a successful request changes;
- that the invariants `Storage.WellFormed` describes are kept: ids by position, unique emails, valid priorities, one share per (todo, user) pair, and shares that refer to existing rows.

Token signing is symbolic. A token records its algorithm, its claims and a signature naming the key and the claims, so it decodes only under the key it was sealed with and only until its `exp`. The clock is the parameter `now`, in seconds. bcrypt is a pair of functions passed in. The one property assumed of it, that a digest verifies against the bytes it was made from, is the predicate `AuthController.Sound`, used as a premise where it is needed.

Modules follow the source files:

| module | source file |
|---|---|
| `Outcomes` | error responses, `.filter(...).first()` |
| `Text` | `str(int)`, `int(str)`, ASCII `lower()` and UTF-8 length |
| `Security` | `app/core/security.py` |
| `Models` | `app/models/*.py` |
| `Schemas` | `app/schemas/todo.py` |
| `Storage` | the tables and their queries |
| `Deps` | `app/deps.py` |
| `AuthController` | `app/controllers/auth_controller.py` |
| `AuthRoutes` | `app/routes/auth_routes.py` |
| `TodoRoutes` | `app/routes/todo_routes.py` |
| `AdminRoutes` | `app/routes/admin_routes.py` |

## Model

| member | source | states |
|---|---|---|
| Outcomes.First | app/routes/todo_routes.py:111-118 | `.filter(...).first()`: the result, if any, is an element of the table satisfying the filter, and it is `None` exactly when no row does |
| Outcomes.FirstAppend | app/routes/todo_routes.py:214-221 | after a row is inserted, every earlier match of a query is still the first match; the new row is found only when nothing earlier matches |
| Text.NatToDecimal | app/core/security.py:29 | `str(n)` is a digit string with no leading zero |
| Text.DecimalRoundTrip | app/routes/todo_routes.py:28 | `int(str(n)) == n` for every user id |
| Text.CanonicalRoundTrip | app/routes/auth_routes.py:97 | `str(int(s)) == s` for every subject in the form `str` produces |
| Text.DecimalInjective | app/core/security.py:29 | distinct user ids give distinct `sub` claims |
| Text.Utf8LengthBounds | app/controllers/auth_controller.py:12 | the UTF-8 encoding of a string takes between one and four bytes per character |
| Text.Utf8Ascii | app/controllers/auth_controller.py:12 | an ASCII string takes exactly one byte per character |
| Security.LoadConfig | app/core/security.py:8-21 | an unset or empty `SECRET_KEY` is fatal at load time with the fixed message; the TTLs default to 30 minutes and 7 days |
| Security.DecodeToken | app/core/security.py:52-60 | `decode_token` is total: it gives the claims exactly for a token sealed under the key with HS256 and not yet expired, and `None` for every other token |
| Security.CreateAccessToken | app/core/security.py:24-35 | the token is sealed under the secret key with HS256; its claims are `sub = str(user_id)` (which reads back as the id), the given role, type "access" and `exp = now + minutes * 60` |
| Security.CreateRefreshToken | app/core/security.py:38-49 | the token is sealed under the secret key with HS256; its claims are `sub = str(user_id)` (which reads back as the id), the given role, type "refresh" and `exp = now + days * 86400` |
| Security.AccessTokenLifetime | app/core/security.py:24-35 | a fresh access token decodes to its own claims up to and including `exp`, and to `None` after it |
| Security.RefreshTokenLifetime | app/core/security.py:38-49 | a fresh refresh token decodes to its own claims up to and including `exp`, and to `None` after it |
| Security.ForeignKeyRejected | app/core/security.py:52-60 | a token sealed under another key never decodes |
| Security.RefreshOutlivesAccess | app/core/security.py:11-17 | a refresh token outlives an access token issued at the same instant exactly when `days * 1440 > minutes`, which holds for the defaults |
| Deps.BearerCredentials | app/deps.py:9-15 | the credentials pass exactly for a present `Bearer` header with non-empty credentials; every refusal is 403 |
| Deps.GetCurrentUser | app/deps.py:12-30 | the payload passes unchanged exactly when the token decodes with type "access"; an undecodable token is 401 "Invalid or expired token" and any other type is 401 "Invalid access token" |
| Deps.Authenticate | app/deps.py:12-30 | header check first, then the token check, with the first refusal as the response |
| Deps.RequireAdmin | app/deps.py:33-40 | 403 "Admin access required" exactly when the role is not "admin"; otherwise the payload passes unchanged |
| Deps.CallerId | app/routes/todo_routes.py:28 | `int(payload["sub"])` succeeds exactly for a digit string and gives its value; otherwise 500 |
| Deps.AccessTokenAccepted | app/deps.py:12-30 | a fresh access token passes the gate until `exp` with its own claims, is 401 after it, and names the user it was issued for |
| Deps.RefreshTokenRejected | app/deps.py:24-28 | a refresh token is refused with 401 by the access gate even while it still decodes |
| Deps.GetTaskPermission | app/deps.py:42-62 | 404 exactly when no row has the id; every refusal is 404 or 403; a success is "owner" or the permission of a share of that (task, user) pair |
| Deps.PermissionNotFound | app/deps.py:47-49 | with ids by position, 404 exactly when the id is outside the table |
| Deps.OwnerPermission | app/deps.py:51-52 | the owner gets "owner", whatever shares exist, even one naming the owner |
| Deps.GranteePermission | app/deps.py:54-62 | a non-owner holding a share gets exactly that share's permission |
| Deps.NoSharePermission | app/deps.py:54-60 | a non-owner without a share gets 403 "No access to this task" |
| Deps.DeletedTaskStillResolves | app/deps.py:47 | a soft-deleted task still resolves: its owner gets "owner" |
| Deps.GetLiveTaskPermission | app/deps.py:42-62 | the resolver with the soft-delete filter: 404 exactly when no live task has the id |
| Deps.LivePermissionHidesDeleted | app/deps.py:47 | with the filter, a deleted task is 404 for everyone; on a live task it agrees with the resolver as written |
| Models.NewTodo | app/models/todo.py:10-13 | a new row carries the given id, title, priority and owner, with `completed` and `is_deleted` false |
| Schemas.ParsePriority | app/schemas/todo.py:6 | a priority is accepted exactly when it is "High", "Medium" or "Low", and it names the parsed value |
| Schemas.PriorityRoundTrip | app/schemas/todo.py:10 | every priority's name parses back to itself |
| Schemas.ToResponse | app/schemas/todo.py:13-17 | the response carries the id, title, priority and completed of the row, and nothing else |
| Storage.EditorShareForPair | app/routes/todo_routes.py:124-128 | with one share per pair, an editor share exists for (task, user) exactly when that pair's share says "editor" |
| Storage.UserByEmailFinds | app/routes/todo_routes.py:202 | with unique emails, the lookup by email finds the one user who has it |
| Storage.ShareForFinds | app/routes/todo_routes.py:206-209 | with one share per pair, the lookup by pair finds that pair's share |
| AuthController.HashPassword | app/controllers/auth_controller.py:8-16 | fewer than 8 characters is "Password must be at least 8 characters long"; then more than 72 UTF-8 bytes is "Password is too long"; otherwise it is the digest of the UTF-8 bytes |
| AuthController.VerifyPassword | app/controllers/auth_controller.py:19-24 | false, without raising, beyond 72 bytes; otherwise bcrypt's verdict on the UTF-8 bytes, with no minimum length |
| AuthController.MidLengthPasswordsHashed | app/controllers/auth_controller.py:8-16 | every password of 8 to 18 characters is hashed, whatever its characters |
| AuthController.OverlongPasswordsRefused | app/controllers/auth_controller.py:12-21 | more than 72 characters is always too long to hash and never verifies |
| AuthController.AsciiPasswordBounds | app/controllers/auth_controller.py:8-16 | an ASCII password is hashed exactly when it has 8 to 72 characters |
| AuthController.HashThenVerify | app/controllers/auth_controller.py:8-24 | for a sound bcrypt, a password verifies against its own digest |
| AuthController.RegisterUser | app/controllers/auth_controller.py:27-41 | inserts in place exactly what `RegisterStep` describes, and a well-formed store stays well formed |
| AuthController.RegisterTakenEmail | app/controllers/auth_controller.py:28-29 | a taken email gives `None` with no change, even when the password is invalid |
| AuthController.RegisterNewEmail | app/controllers/auth_controller.py:31-41 | for a new email, an invalid password reports its rule with no change; a valid one adds exactly one user, holding the digest rather than the password, with the default role |
| AuthController.RegisterKeepsWellFormed | app/controllers/auth_controller.py:27-41 | registration keeps ids by position and emails unique |
| AuthController.AuthenticateUser | app/controllers/auth_controller.py:44-52 | a returned user has the email and a password that verifies; `None` exactly for an unknown email or a failed verify |
| AuthController.AuthenticateExactly | app/controllers/auth_controller.py:44-52 | with unique emails, the email's owner is returned exactly when the password verifies |
| AuthController.RegisterThenAuthenticate | app/controllers/auth_controller.py:27-52 | a user just registered logs in with the password they chose |
| AuthRoutes.RegisterResponse | app/routes/auth_routes.py:44-52 | a `ValueError` is 400 with its message, `None` is 400 "Registration failed", and a user is `{"success": true}` |
| AuthRoutes.Register | app/routes/auth_routes.py:39-52 | the database changes as `RegisterStep` says, the response is the mapping above, and a well-formed store stays well formed |
| AuthRoutes.RegisterFailureChangesNothing | app/routes/auth_routes.py:44-52 | every refused registration is a 400 and leaves the users table unchanged |
| AuthRoutes.Login | app/routes/auth_routes.py:55-82 | 401 "Invalid credentials" exactly when authentication fails; otherwise an access token in the body and a refresh token in the cookie for the user's id and role |
| AuthRoutes.LoginTokensAgree | app/routes/auth_routes.py:64-80 | the two tokens of a login carry the same subject and role and the right types, and the access token passes the access gate for that user |
| AuthRoutes.Refresh | app/routes/auth_routes.py:85-118 | 401 without the cookie; 401 for a token that does not decode or is not a refresh token; 500 for a non-numeric subject; otherwise a new pair for the token's own subject and role |
| AuthRoutes.RefreshRejectsAccessToken | app/routes/auth_routes.py:93-95 | an access token is refused at the refresh endpoint |
| AuthRoutes.RefreshRotates | app/routes/auth_routes.py:97-118 | a refresh token from a login gives a pair issued at the new instant, and the presented token still works afterwards |
| AuthRoutes.RefreshKeepsClaims | app/routes/auth_routes.py:97-101 | the new tokens carry exactly the presented subject and role, taken from the token and not from the users table |
| AuthRoutes.Logout | app/routes/auth_routes.py:121-125 | the response is a success that deletes the refresh cookie and does nothing else |
| AuthRoutes.Me | app/routes/auth_routes.py:128-140 | the caller's name, email and role, or 404 when the token's user id has no row |
| AuthRoutes.MeByPosition | app/routes/auth_routes.py:136-139 | with ids by position, `me` reads the row at `id - 1` and gives 404 beyond the table |
| TodoRoutes.GetTasks | app/routes/todo_routes.py:28-66 | the response is the caller's live todos tagged "owner" in table order, followed by the live todos of the caller's shares tagged with each share's permission |
| TodoRoutes.OwnedEntriesExactly | app/routes/todo_routes.py:32-47 | the owned part lists exactly the caller's live todos, each as "owner" |
| TodoRoutes.SharedEntriesSound | app/routes/todo_routes.py:49-64 | every shared entry comes from a share of the caller on a live todo, with that share's permission |
| TodoRoutes.SharedEntriesComplete | app/routes/todo_routes.py:49-64 | every share of the caller on a live todo is listed with its permission |
| TodoRoutes.ListedTasksAreLive | app/routes/todo_routes.py:32-66 | no listed entry names a deleted todo |
| TodoRoutes.SelfShareListedTwice | app/routes/todo_routes.py:32-64 | a share a user holds on their own task lists that task twice, once as owner and once with the share's permission |
| TodoRoutes.CreateTask | app/routes/todo_routes.py:79-91 | inserts in place exactly what `CreateStep` describes, and a well-formed store stays well formed |
| TodoRoutes.CreateAddsOwnedTask | app/routes/todo_routes.py:81-91 | a create adds exactly one todo owned by the caller, neither completed nor deleted, with the next id, and changes nothing else; the caller then resolves as its owner and sees it in the owned list |
| TodoRoutes.CreateKeepsWellFormed | app/routes/todo_routes.py:81-90 | creates keep every invariant, a valid stored priority among them |
| TodoRoutes.UpdateTask | app/routes/todo_routes.py:109-138 | changes the loaded row in place exactly as `UpdateStep` describes, and a well-formed store stays well formed |
| TodoRoutes.UpdateOutcomes | app/routes/todo_routes.py:111-136 | in order: 404 for an absent or deleted task; 403 with no change for a non-owner whose share is missing or not "editor"; otherwise only title, priority and completed of that one row change, with owner and deletion flag kept |
| TodoRoutes.ViewerCannotEdit | app/routes/todo_routes.py:123-131 | a viewer share never allows an edit, and the database is unchanged |
| TodoRoutes.UpdateKeepsWellFormed | app/routes/todo_routes.py:133-136 | updates keep every invariant |
| TodoRoutes.DeleteTask | app/routes/todo_routes.py:153-166 | sets the flag in place exactly as `DeleteStep` describes, and a well-formed store stays well formed |
| TodoRoutes.DeleteOutcomes | app/routes/todo_routes.py:155-166 | success exactly for the owner of a live task, which then sets only its flag; a missing task, someone else's or a deleted one is 403 "Only owner can delete" with no change |
| TodoRoutes.DeleteTwice | app/routes/todo_routes.py:155-162 | a repeated delete is refused with 403 and changes nothing |
| TodoRoutes.DeleteKeepsWellFormed | app/routes/todo_routes.py:164-165 | deletes keep every invariant |
| TodoRoutes.ShareTask | app/routes/todo_routes.py:183-227 | inserts the share in place exactly as `ShareStep` describes, and a well-formed store stays well formed |
| TodoRoutes.ShareOutcomes | app/routes/todo_routes.py:185-204 | the checks in order: a permission other than viewer or editor is 400 before any lookup, then 404 for a missing or deleted task, 403 for a non-owner, 404 for an unknown email; every refusal leaves the database unchanged |
| TodoRoutes.ShareWithGrantee | app/routes/todo_routes.py:206-227 | an existing share for the pair gives 400 and keeps it as it was; otherwise exactly one share is appended, and the grantee then resolves to the granted permission, or to "owner" when the grantee is the owner |
| TodoRoutes.ShareKeepsWellFormed | app/routes/todo_routes.py:206-221 | shares keep every invariant, above all one share per (todo, user) pair |
| TodoRoutes.AppendShareKeepsWellFormed | app/models/todo_share.py:8-15 | a share for a pair that has none, naming an existing todo and user and carrying viewer or editor, keeps the invariants |
| AdminRoutes.Window | app/routes/admin_routes.py:29-35 | `.offset(o).limit(l)` returns `min(l, rows left after o)` rows when `l >= 0`, all the rows left when `l < 0`, and row `k` of the result is row `max(o, 0) + k` of the table |
| AdminRoutes.GetAllUsers | app/routes/admin_routes.py:16-35 | `page` and `limit` default to 1 and 10; 403 for a non-admin; with SQLite taken as the engine, 500 when the offset `(page - 1) * limit` or the limit does not fit its 64-bit INTEGER; otherwise exactly the users from position `max(offset, 0)` on, `limit` of them or as many as remain (all that remain for a negative limit) |
| AdminRoutes.DefaultUsersPage | app/routes/admin_routes.py:16-35 | with no query parameters an admin gets the first ten users of the table |
| AdminRoutes.UsersRouteIsPage | app/routes/admin_routes.py:29-35 | for an admin with a bindable offset and limit the route answers with page `page` of the table, which the page lemmas below describe |
| AdminRoutes.PageIsSlice | app/routes/admin_routes.py:29-35 | with a positive limit, page `n` continues exactly where page `n - 1` ends |
| AdminRoutes.PagesArePrefix | app/routes/admin_routes.py:29-35 | with a positive limit, pages 1 to `n` together are the first `n * limit` users, in table order |
| AdminRoutes.EveryUserOnOnePage | app/routes/admin_routes.py:29-35 | paging with a positive limit far enough shows every user exactly once, in order |
| AdminRoutes.PageEdgeCases | app/routes/admin_routes.py:29 | a page number below 1 shows the first page; a negative limit shows the whole table from every page number of at least 1 |
| AdminRoutes.TodoRowsExactly | app/routes/admin_routes.py:60-61 | a todo's rows are one per share of it with that share's user, or one row without share when it has none |
| AdminRoutes.JoinedRowsExactly | app/routes/admin_routes.py:57-64 | a row is in the join exactly when its todo is live, its owner exists, and it carries a share of the todo with that share's user, or no share when the todo has none |
| AdminRoutes.Dedup | app/routes/admin_routes.py:68-69 | the distinct ids, each once, and no other |
| AdminRoutes.DedupFirstSeenOrder | app/routes/admin_routes.py:66-77 | records come in the order in which their todos are first seen in the rows |
| AdminRoutes.FirstRowOf | app/routes/admin_routes.py:69-77 | a record is built from a row of its own todo, and one exists exactly for the ids in the rows |
| AdminRoutes.Grouped | app/routes/admin_routes.py:66-87 | one record per distinct todo id, in first-seen order |
| AdminRoutes.GroupingStep | app/routes/admin_routes.py:68-83 | one turn of the loop extends the grouping of a prefix to the grouping of the prefix and the row |
| AdminRoutes.ExpectedGrouping | app/routes/admin_routes.py:66-83 | the dictionary the loop builds from any prefix is the grouping of that prefix |
| AdminRoutes.GroupRows | app/routes/admin_routes.py:66-87 | the grouping loop over a dictionary keyed by todo id returns, in insertion order, exactly `Grouped(rows)`, for any order of the rows |
| AdminRoutes.GrantsOfAbsent | app/routes/admin_routes.py:76 | a todo with no rows has an empty `shared_with` |
| AdminRoutes.GrantsOfExactly | app/routes/admin_routes.py:79-83 | a `shared_with` entry is exactly the email of a matched share user with that share's permission, from a row of the same todo |
| AdminRoutes.Emails | app/routes/admin_routes.py:89-91 | the emails of a record are the owner's email and every grantee's email |
| AdminRoutes.FilterTasks | app/routes/admin_routes.py:85-97 | the filtering loop returns exactly `Kept(tasks, search)` |
| AdminRoutes.KeptExactly | app/routes/admin_routes.py:87-95 | a task is kept exactly when it matches; with no search text or an empty one, every task is kept in order |
| AdminRoutes.SearchIsExact | app/routes/admin_routes.py:92 | the search ignores case but matches whole emails: "alice" does not find "Alice@example.com" and "ALICE@EXAMPLE.COM" does |
| AdminRoutes.GetAllTasks | app/routes/admin_routes.py:38-97 | 403 exactly for a non-admin; otherwise the grouped join, filtered by the search |
| AdminRoutes.JoinedRowAt | app/routes/admin_routes.py:57-64 | a joined row holds the live todo with its id, that todo's owner, and a share of the todo with that share's user |
| AdminRoutes.AdminOverviewRecord | app/routes/admin_routes.py:69-77 | each record carries the id, title, priority and completed of the live todo with its id, and its owner's email |
| AdminRoutes.AdminOverviewGrants | app/routes/admin_routes.py:79-83 | a grant is in a task's `shared_with` exactly when some share of the task has an existing user with that email and that permission |
| AdminRoutes.AdminOverviewComplete | app/routes/admin_routes.py:57-77 | a todo appears in the overview exactly when it is live and its owner exists |
| AdminRoutes.AdminDeleteTask | app/routes/admin_routes.py:111-129 | flags the task and appends the audit row in place exactly as `AdminDeleteStep` describes, and a well-formed store stays well formed |
| AdminRoutes.AdminDeleteOutcomes | app/routes/admin_routes.py:111-128 | for an admin: 404 with no audit entry for a missing or deleted task, whoever owns it; 500 with nothing stored when the admin's row is missing; otherwise the flag is set and exactly one audit entry with the admin's email is appended, and nothing else changes |
| AdminRoutes.AuditEntryNamesTask | app/routes/admin_routes.py:123-126 | the new audit entry is "Deleted task " followed by the id, which reads back as the id |
| AdminRoutes.AdminDeleteKeepsWellFormed | app/routes/admin_routes.py:121-128 | force deletes keep every invariant |
| AdminRoutes.AdminDeleteHidesTask | app/routes/admin_routes.py:121 | the task a force delete succeeds on leaves the overview |

## Left out

- HTTP transport: the framework, serialization, cookie attributes (`httponly`, `secure`, `samesite`), and the HTML page routes.
- `main.py`, `app/routes/health.py` and the static JavaScript: framework wiring, a database probe and browser code, none of which decides anything here.
- `app/controllers/todo_controller.py` is not part of this model: its code is all commented out.
- `app/models/user.py` is not part of this model. The `User` record keeps only the columns the core reads. The default role "user" and unique emails are taken as the table's column default and constraint; the second is the invariant `Storage.UniqueEmails`.
- bcrypt and JWT (python-jose) are not implemented. bcrypt is a pair of functions passed in. A JWT is a symbolic sealed record, and its byte format is not modelled.
- The clock is the parameter `now`, in whole seconds. `create_access_token` and `create_refresh_token` each read the clock (app/core/security.py:32 and :46); `AuthRoutes.Login` and `AuthRoutes.Refresh` pass one `now` to both, so a gap of up to a second between the two reads is not modelled. The reading of the environment is the three optional arguments of `Security.LoadConfig`.
- Deps.BearerCredentials: `HTTPBearer` belongs to the framework. The model follows its refusals, 403 "Not authenticated" and 403 "Invalid authentication credentials", as section 2.1 of RFC 6750 frames the header, but does not model the header's byte-level parsing.
- Deps.CallerId: Python's `int()` also accepts a sign, surrounding whitespace, underscores and non-ASCII decimal digits (such as Arabic-Indic digits). The model accepts digit strings only. Tokens issued by this service always carry `str(id)`.
- Text.Lower: `str.lower()` folds all of Unicode; the model lower-cases ASCII letters only.
- The database's row order is not modelled. The join is built in one fixed order (todo, then share); `AdminRoutes.GroupRows` is proved for every order of rows.
- The database engine is configured in `app/database/`, which is not part of this model, and no modelled file names one. The model takes it to be SQLite: a negative offset counts as 0, a negative limit means no limit, and a bound parameter must fit 64 bits.
- AdminRoutes.Window, AdminRoutes.GetAllUsers: on another engine (PostgreSQL, for one) a negative offset or limit, or an out-of-range bound parameter, is a database error, so the route answers 500 where the model returns rows.
- TodoRoutes.UpdateTask, TodoRoutes.DeleteTask, TodoRoutes.ShareTask and AdminRoutes.AdminDeleteTask: the path id is a `nat`. The source also accepts a negative id, which no row has (so it is answered like a missing task), and an id beyond 2^63 - 1, which the SQLite driver refuses to bind with an uncaught `OverflowError` (a 500); neither is modelled. `AdminRoutes.GetAllUsers` does model that bound for its offset and limit.
- `GET /admin/users` returns whole user rows. The model returns the `User` records, which include the password digest; what the framework then serializes is not modelled.
- Concurrent requests are not modelled. The races between lookup and insert in `share_task` and `register_user` are replaced by the invariants `Storage.UniqueEmails` and `Models.UniquePairs`.
- Commit and refresh: each route's effect is applied as one step, which matches the single commit every route makes.
- AdminRoutes.AdminOverviewGrants: states which grants a task's `shared_with` holds, but not how many times each occurs. Each share row gives exactly one grant, and the pair constraint allows one share per user.
- TodoRoutes.ShareTask: the constant `"status": "shared"` of the response is not carried in `ShareReceipt`.

## Findings

| source | as written | input that shows it | evidently intended | confidence | as-written member | corrected member |
|---|---|---|---|---|---|---|
| app/deps.py:47 | `get_task_permission` looks the task up by id only, so a soft-deleted task still resolves | the table `[Todo(1, "t", "Low", false, 7, true)]` (task 1 deleted, owner 7): task 1 for user 7 gives "owner" instead of 404 | every route filters `is_deleted == False`, so a deleted task should be 404 for everyone | not executed | Deps.DeletedTaskStillResolves | Deps.LivePermissionHidesDeleted |
