# Task management API — core model

This project models the core of a small task-management web service: users
register with an email and a password, log in to obtain a bearer token, and
create, list, read, update and delete their own tasks. The model covers

- the two tables the handlers work on (users keyed by id with unique emails,
  tasks keyed by id with an owner), held as the `map` fields of
  `App.TaskStore`, whose methods are the handlers that write them and whose
  functions are the handlers that only read;
- identity resolution (`Auth.GetCurrentUser`, `Auth.Authenticate`): a bearer
  token is decoded and its `sub` claim looked up among the users, and the
  failures collapse into one credentials error;
- token issuing (`Auth.Expiry`, `Auth.AccessClaims`): the claim set and the
  expiry rule, including Python's falsy zero `timedelta`;
- the request and response records with their field constraints (`Schemas`).

Password hashing (bcrypt) and token signing (JWT) are passed in as function
values (`Auth.Hasher`, `Auth.Jwt`); no property of them is assumed except
where a lemma states it as a premise (a password verifies against its own
hash; a token decodes to the claims it was made from; the decoder refuses a
token whose `sub` is present but not a string, `Auth.ChecksSubject`). Time is an integer
number of seconds passed as `now`; ids and column defaults the database
supplies are parameters (`newId`, `isActive`, `TaskDefaults`).

Files: `wrappers.dfy` (Option, Result), `errors.dfy` (the error responses),
`schemas.dfy` (app/schemas.py), `models.dfy` (the user row and the lookups on
the users table), `auth.dfy` (app/auth.py), `main.dfy` (app/main.py).

Points where the code behaves otherwise than its messages and names suggest,
and which the model follows:

- A due date equal to `now` is accepted (`due_date < now` rejects), although
  the error message reads "Due date must be in the future".
- Registration compares and stores the address in the normal form the
  `EmailStr` schema type gives it, while login looks up the `username` form
  field exactly as sent (`App.TaskStore.RegisterUser`, `App.SameAddressTwice`).
- `get_current_user` catches only `JWTError`. A `sub` claim that is a number
  would make the `TokenData` schema raise an error it does not catch, a server
  error. python-jose's `jwt.decode` refuses such a token itself, so this
  branch is reached only with a decoder that does not check the claim's type;
  `Auth.CheckedSubjectNeverFaults` proves that with a checking decoder every
  failure is the credentials error.
- An empty title is rejected by the schema layer with a 422 before the
  handler body runs (`Unprocessable`), so it is checked before ownership and
  before the due date.
- Updating a task does not refresh `updated_at` in the handler code; the
  model leaves it unchanged (see Left out).

## Model

| member | source | states |
|---|---|---|
| `App.TaskStore.RegisterUser` | app/main.py:26-41 | an address the `EmailStr` type refuses gives `Unprocessable` and changes nothing; an address whose normal form some user already has fails with `AlreadyExists` and leaves the users table as it was; otherwise exactly one row is added under the new id, holding the normal form of the email and the hasher's output for the password in place of the password, the response carries id, email and is_active only, and emails stay unique |
| `App.TaskStore.Login` | app/main.py:44-62 | an unknown email and a password that does not verify give the same `InvalidCredentials`; for the user with that email, success holds exactly when the password verifies; a success is a `"bearer"` token encoding `sub` = the email and `exp` = now plus the configured minutes |
| `App.TaskStore.CreateTask` | app/main.py:65-82 | an invalid title is refused before anything else; a due date before `now` fails with `PastDueDate` and stores nothing (a due date equal to `now` is accepted); on success exactly one task is added, owned by the caller and carrying the input title, description and due date, and no other task changes |
| `App.TaskStore.ReadTasks` | app/main.py:85-99 | at most `limit` tasks, all stored, all owned by the caller and, when `completed` is given, all in that state; the result is the caller's filtered listing with the first `skip` rows dropped |
| `App.OwnedTasks` | app/main.py:94-96 | the listing before offset and limit contains every task of the owner passing the completion filter, nothing else, and in ascending id order |
| `App.Page` | app/main.py:97 | offset then limit: the length is `limit` or what remains after `skip`, whichever is smaller, and the rows are those from position `skip` on |
| `App.TaskStore.ReadTask` | app/main.py:102-117 | succeeds exactly when a task with that id exists and belongs to the caller, returning it; a missing task and another user's task both give `NotFound` |
| `App.TaskStore.UpdateTask` | app/main.py:120-150 | a missing or foreign task gives `NotFound` and changes nothing even when the sent due date is past; a past due date on an owned task gives `PastDueDate` and changes nothing; otherwise only the sent fields are overwritten and no other task changes |
| `App.ApplyUpdateDataIsPatched` | app/main.py:142-145 | the `setattr` loop over the fields the client sent yields the task whose sent fields take the sent values and whose other fields keep theirs |
| `App.SetFields` | app/main.py:144-145 | the loop that sets one field per entry of the update data leaves the task as the entries, applied in order, make it |
| `App.Patched` | app/main.py:142-145 | a partial update never changes a task's id, owner or timestamps |
| `App.PatchedIdempotent` | app/main.py:142-145 | applying the same partial update twice has the effect of applying it once |
| `App.EmptyUpdateIsIdentity` | app/schemas.py:41-45 | an update that sends no field leaves the task unchanged |
| `App.TaskStore.DeleteTask` | app/main.py:153-171 | a missing or foreign task gives `NotFound` and changes nothing; otherwise exactly that one task is removed and the rest of the table is as it was |
| `App.ListingsAreDisjoint` | app/main.py:94 | no task ever appears in the listings of two different users, whatever offset, limit and completion filter each one asks for |
| `App.RegisteredUserCanLogIn` | app/main.py:35-62 | a stored user whose password verifies against its stored hash logs in with that password and receives a token for its own email |
| `App.LoginUsesOnlyVerify` | app/auth.py:20-27 | login depends on the hasher only through `verify` applied to the stored hash |
| `App.LoginThenAuthenticate` | app/auth.py:42-67 | a token issued by login, if the token library decodes it back to its claims, resolves to the stored user who logged in |
| `App.SameAddressTwice` | app/main.py:29-34 | two spellings of an address with the same normal form are one account: the second registration gets `AlreadyExists` |
| `App.Walkthrough` | tests/test_main.py:18-78 | the test suite's scenario: registering `test@example.com` echoes the email, logging in with `testpassword` gives a `"bearer"` token, creating "Test Task" with description "Test Description" due in a day returns both fields as sent, and, beyond the test's own check that the listing is a list, the listing on a fresh store holds exactly that task |
| `App.UserResponse` | app/schemas.py:14-16 | the user response carries the row's id, email and is_active and has no password field |
| `App.TaskStore.constructor` | app/main.py:16 | the store starts with both tables empty and its invariant established |
| `Auth.Expiry` | app/auth.py:32-35 | `exp` is `now + delta` for a non-zero delta and `now` plus the configured minutes when the delta is missing or zero |
| `Auth.AccessClaims` | app/auth.py:30-36 | the signed claims are the caller's claims plus `exp`, every other claim unchanged; the caller's claims are not modified |
| `Auth.CreateAccessToken` | app/auth.py:30-39 | the token, decoded by a library that inverts its encoding, carries the caller's claims, every one but `exp` with its value unchanged, the subject included, plus `exp` set to the computed expiry |
| `Auth.Subject` | app/auth.py:54-55 | a missing `sub` claim and a null one are both no subject; any other value is the subject |
| `Auth.GetCurrentUser` | app/auth.py:42-67 | one and the same `Unauthenticated` exactly when the token does not decode, has no (or a null) `sub`, or names an email no user has; a numeric `sub`, which only a decoder that does not check the claim's type lets through, escapes as a server fault; on success the user is stored and its email is the `sub` claim |
| `Auth.CheckedSubjectNeverFaults` | app/auth.py:50-61 | with a decoder that checks that `sub` is a string, as python-jose's does by default, every failure of identity resolution is the credentials error |
| `Auth.GetCurrentActiveUser` | app/auth.py:70-78 | never fails and returns its input user unchanged, whether or not it is active |
| `Auth.Authenticate` | app/main.py:66-70 | the identity a protected handler receives is the one identity resolution gives, unaltered by the activity check: the stored user whose email is the token's `sub`; every failure is `Unauthenticated` or a server fault |
| `Models.UserByEmail` | app/main.py:29 | finds a row exactly when some user has that email; the row found has that email and is the one stored under its id |
| `Models.Ascending` | app/main.py:97 | the ids of a table, each once, in strictly ascending order |
| `Schemas.UpdateData` | app/main.py:142 | the fields the client sent, each exactly once, in declaration order, and no field that was left out |
| `App.LoginClaims` | app/main.py:58-61 | the login token's claims are exactly `sub` = the email and `exp` = now plus the configured minutes, which is what `create_access_token` makes of `{"sub": email}` with the configured lifetime as delta |
| `Schemas.ValidTitle` | app/schemas.py:32 | a title is valid exactly when it is not empty |
| `Schemas.ValidTaskCreate` | app/schemas.py:31-38 | a create request passes the schema exactly when its title is not empty |
| `Schemas.ValidTaskUpdate` | app/schemas.py:41-42 | an update passes the schema exactly when it sends no title or a non-empty one |
| `Errors.Status` | app/main.py:32-34 | the two authentication errors are exactly the 401 responses, the duplicate email and past due date exactly the 400 ones |

## Left out

- Hashing and signing: bcrypt (`CryptContext`) and JWT encoding, decoding and signature and expiry checking are function values supplied by the caller; a random salt is an explicit argument. Expiry of a token is therefore part of `Jwt.decode`, not modelled separately.
- `EmailStr` validation and normalisation are done by a foreign library; the model takes them as a function `normalize` supplied by the caller, with no property assumed of it.
- app/models.py and app/config.py are not part of this model: generated ids, the `is_active` and `is_completed` defaults and the `created_at` timestamps are parameters; the settings are `Auth.Settings`.
- App.TaskStore.UpdateTask: does not refresh `updated_at`, because that maintenance lives in app/models.py, which is not part of this model.
- App.TaskStore.UpdateTask: an explicit JSON `null` for `title`, `due_date` or `is_completed` is treated as an unset field; the source would write `None` into the row and fail in the database or in the response schema. An explicit `null` description is modelled (it clears the description).
- App.TaskStore.ReadTasks: `skip` and `limit` are natural numbers; what the database does with negative values depends on its backend.
- The order of rows returned by a query without `ORDER BY` is taken to be ascending id.
- Models.EmailTaken: email lookups compare strings exactly; the SQL `=` of the source follows the collation of the configured database, which may ignore case.
- Comparing a due date without a time zone against the aware current time raises in the source; time zones are not modelled.
- Database sessions, transactions, HTTP routing, headers and status mapping beyond the error kind, logging, concurrency between requests and the migration bootstrap (alembic/env.py) are not modelled.
