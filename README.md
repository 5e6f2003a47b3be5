# To-do API store: a Dafny model

This project models the logic of a small Flask to-do service (`app.py`). Each user account has a
username and a bcrypt password hash. Each task has a text, a completion flag and an owner. Without
HTTP, SQLAlchemy, JWT and bcrypt, what remains is a state machine over two tables:

- `users`: `register` trims both fields. It rejects a blank field and an existing username, then
  inserts a row with a fresh id and the hash of the password. `login` trims both fields, rejects a
  blank one, looks the username up and checks the password. It answers a missing user and a wrong
  password alike.
- `tasks`: `get_tasks`, `add_task`, `update_task`, `toggle_done` and `delete_task`. All of them act
  for the caller only. The last three find the task with one filter on id and owner, so another
  owner's task looks exactly like a missing one.
- The start-up rewrite of a `postgres://` database URL to `postgresql://`.

Layout:

- `outcomes.dfy` (`Outcomes`): `Option`, and `Result` with the failures `InvalidInput`,
  `DuplicateUsername`, `BadCredential` and `NotFound`. These replace the HTTP status codes 400, 400,
  401 and 404.
- `text.dfy` (`Text`): Python's `str.strip()`, using the Unicode whitespace of `str.isspace`.
- `database_url.dfy` (`DatabaseUrl`): `str.startswith`, `str.replace(old, new, 1)` and the URL rewrite.
- `password.dfy` (`Password`): `set_password`/`check_password`. The hash is a stand-in whose check
  succeeds exactly for the hashed password.
- `accounts.dfy` (`Accounts`): the `users` table as a map, with `register` and `login` as functions
  that return the answer and the new table.
- `tasks.dfy` (`Tasks`): the same for the `tasks` table and its five handlers, plus the ownership,
  framing, toggle and partial-update lemmas.
- `store.dfy` (`App`): class `Store` holds both tables and the next id of each. It has one method per
  handler, and each method's contract ties its answer and the new table to the matching function.
  `Valid()` keeps ids fresh and usernames distinct, non-blank and trimmed. `EndToEnd` runs
  register, login, add, toggle and list on a fresh store.

Two facts about the code shape the model:

- The code answers 401 both for an unknown user and for a wrong password (app.py:101-102), so the
  model has one `BadCredential`.
- The code declares `String(120)` for task text and never checks the length, so task text is
  unbounded in the model.

## Model

| member | source | states |
|---|---|---|
| `Text.Trim` | app.py:69-70 | `strip()`: the result has no whitespace at either end, and it is empty exactly when the input is all whitespace |
| `Text.TrimIsSlice` | app.py:69-70 | `strip()` keeps one contiguous slice of the input and cuts off only whitespace before and after it |
| `Text.TrimIdempotent` | app.py:69-70 | a non-blank stripped string is `Stripped`; stripping a `Stripped` string, or stripping twice, changes nothing |
| `DatabaseUrl.StartsWith` | app.py:13 | `startswith(prefix)` holds exactly when the string is `prefix` followed by some tail |
| `DatabaseUrl.ReplaceFirst` | app.py:14 | `replace(pat, rep, 1)`: a leading `pat` becomes `rep`, the rest is unchanged; a string with no occurrence of `pat` is returned unchanged |
| `DatabaseUrl.FirstOccurrence` | app.py:14 | `replace(pat, rep, 1)` where the leftmost occurrence of `pat` is at `i`: that occurrence becomes `rep`, and everything before and after it is kept |
| `DatabaseUrl.Rewrite` | app.py:13-14 | a `postgres://` URL becomes `postgresql://` plus its unchanged remainder; any other URL is unchanged; the result never starts with `postgres://` |
| `DatabaseUrl.ConfiguredUri` | app.py:12-16 | with DATABASE_URL unset the URI is `sqlite:///local.db`; a set value is kept as is unless it starts with `postgres://`, and then that prefix alone becomes `postgresql://`; the result never starts with `postgres://` |
| `DatabaseUrl.RewriteIdempotent` | app.py:13-14 | rewriting twice is rewriting once; a `postgresql://` URL is left alone |
| `Password.HashPassword` | app.py:38-39 | the stored hash records its salt and verifies the password it was made from |
| `Password.CheckPassword` | app.py:41-42 | `check_password` accepts a password exactly when the stored digest is that password sealed under the digest's own salt, so the two have the same length |
| `Password.SealInjective` | app.py:41-42 | two passwords sealed under one salt agree only if the passwords are equal |
| `Password.CheckIffSame` | app.py:38-42 | `check_password(p)` on the hash of `q` succeeds if and only if `p == q`, for every salt |
| `Accounts.AsDict` | app.py:35-36 | the account view carries exactly the id and the username, and nothing of the hash |
| `Accounts.Taken` | app.py:77 | the username query (here and at line 100) finds a row exactly when the name is among the table's usernames |
| `Accounts.Register` | app.py:68-74 | both fields are trimmed before the checks, so a request is InvalidInput exactly when a field is nothing but whitespace |
| `Accounts.RegisterTrimmed` | app.py:72-87 | on the trimmed fields: a blank field gives InvalidInput and a taken username gives DuplicateUsername, both with no change; otherwise exactly one row is added under the fresh id, with the username and a hash that verifies the password, and the new account is returned |
| `Accounts.InsertKeepsWellFormed` | app.py:31 | adding a row whose username is new and stripped keeps usernames distinct and stripped |
| `Accounts.RegisterKeepsWellFormed` | app.py:76-84 | registration keeps usernames pairwise distinct, non-blank and trimmed |
| `Accounts.Login` | app.py:91-105 | a blank trimmed field gives InvalidInput; success names an account with that username whose hash verifies the password, and with distinct usernames it succeeds exactly when one exists; every other failure is BadCredential |
| `Accounts.RegisterThenLogin` | app.py:68-101 | a registration with fields that are not all whitespace and a username not yet taken succeeds under the fresh id; a login with the same credentials then succeeds, as that account |
| `Accounts.RegisterTwiceIsDuplicate` | app.py:76-78 | registering the same trimmed username a second time gives DuplicateUsername and leaves the table unchanged |
| `Accounts.WrongPasswordRejected` | app.py:100-102 | an account's username with any password other than its own gives BadCredential |
| `Accounts.UnknownUserRejected` | app.py:100-102 | a username with no account gives BadCredential, the same answer as a wrong password |
| `Tasks.AsDict` | app.py:56-62 | the task view carries exactly the id, the text, the `done` flag and the owner id, as stored |
| `Tasks.Lookup` | app.py:137 | the lookup finds a task only when the id exists and its owner is the caller |
| `Tasks.Listing` | app.py:114-115 | the list holds the caller's tasks, every one of them, and no task of anyone else |
| `Tasks.Create` | app.py:119-129 | blank text after trimming gives InvalidInput with no change; otherwise one task is added under the fresh id, with the trimmed text, not done, owned by the caller, and existing tasks are unchanged |
| `Tasks.Apply` | app.py:139-142 | a field present in the request is stored as given; an absent field and the owner are kept |
| `Tasks.Update` | app.py:134-144 | NotFound with no change unless the caller owns the id; otherwise only that task changes, to the patched task, which is returned |
| `Tasks.Toggle` | app.py:149-154 | NotFound with no change unless the caller owns the id; otherwise only that task's flag changes, to its negation |
| `Tasks.Delete` | app.py:159-164 | NotFound with no change unless the caller owns the id; otherwise exactly that row is removed and nothing else changes |
| `Tasks.ForeignIsMissing` | app.py:137 | on another owner's task, update, toggle and delete answer NotFound and change nothing, the same answer as when the id does not exist |
| `Tasks.ListingDependsOnOwnTasks` | app.py:114 | what an owner lists depends only on the rows that owner owns |
| `Tasks.CreateIsolated` | app.py:117-129 | adding a task leaves every other owner's list unchanged |
| `Tasks.UpdateIsolated` | app.py:132-144 | an update leaves every other owner's list unchanged |
| `Tasks.ToggleIsolated` | app.py:147-154 | a toggle leaves every other owner's list unchanged |
| `Tasks.DeleteIsolated` | app.py:157-164 | a delete leaves every other owner's list unchanged |
| `Tasks.CreateThenListed` | app.py:114-129 | after a successful add, the caller lists the old list plus the new task (trimmed text, not done) |
| `Tasks.ToggleTwice` | app.py:152 | toggling twice restores the table, and the first toggle reports the negated flag |
| `Tasks.EmptyPatchIsNoOp` | app.py:138-143 | an update with neither field returns the task unchanged and leaves the table unchanged |
| `Tasks.PatchTouchesOnlyGivenFields` | app.py:139-142 | an update with only `text` keeps `done`, and an update with only `done` keeps `text` |
| `Tasks.UpdateIdempotent` | app.py:139-142 | repeating an update request gives the same answer and the same table |
| `Tasks.UpdateAcceptsBlankText` | app.py:139-140 | unlike `add_task`, an update stores a blank text as it is |
| `Tasks.DeleteThenNotFound` | app.py:161-162 | after a delete the id is NotFound for update, toggle and delete, for every caller |
| `App.Store.constructor` | app.py:27-52 | a fresh database whose schema already exists: empty `users` and `tasks` tables, and both id counters start at 1 |
| `App.Store.Register` | app.py:66-87 | the answer and the new accounts table are those of `Accounts.Register` with the next user id; the counter advances only on success, the tasks are untouched, and `Valid()` is kept |
| `App.Store.AddAccount` | app.py:83-84 | the new row goes in under the next user id, which was not in use; the counter advances and `Valid()` is kept |
| `App.Store.Login` | app.py:91-105 | the answer is `Accounts.Login` of the current accounts; nothing is modified |
| `App.Store.ListTasks` | app.py:108-115 | the answer is `Tasks.Listing` of the current tasks for the caller; nothing is modified |
| `App.Store.CreateTask` | app.py:117-129 | answer and new tasks table as `Tasks.Create` with the next task id; the counter advances only on success; accounts untouched |
| `App.Store.AddTask` | app.py:127-128 | the new row goes in under the next task id, which was not in use; the counter advances and `Valid()` is kept |
| `App.Store.UpdateTask` | app.py:132-144 | answer and new tasks table as `Tasks.Update`; only the tasks table may change |
| `App.Store.ToggleTask` | app.py:147-154 | answer and new tasks table as `Tasks.Toggle`; only the tasks table may change |
| `App.Store.DeleteTask` | app.py:157-164 | answer and new tasks table as `Tasks.Delete`; only the tasks table may change |
| `App.EndToEnd` | app.py:66-164 | on a fresh store, with input that needs no trimming: register and log in as account 1, add a task, toggle it, and list exactly that task marked done; any other caller gets NotFound when toggling it |

## Left out

- Flask routing, CORS, `request.json` and `jsonify`: each handler takes its fields as arguments and returns a `Result` instead of a status code. An absent `username`, `password` or `text` is passed as `""`, which is the default the code reads.
- JSON values that are not strings or booleans are not modelled. A numeric `username` makes `strip()` raise. A `null` text in an update breaks the `NOT NULL` constraint. A `done` other than `true`, `false`, `null`, 0 or 1 is refused by the `Boolean` column when the session commits, and the request fails with a server error. The model types these fields as `string` and `bool`.
- JWT: `create_access_token`, `jwt_required` and `get_jwt_identity`. The caller of a task handler is an owner-id argument, and token minting on register and login is not modelled. Registration and login return the account view, which carries the id the token would carry.
- bcrypt internals. `Password.HashPassword` is a stand-in that is injective for each salt and not one-way. The model keeps only the property the handlers use: a hash verifies exactly its own password. The random salt is an argument.
- `Password.CheckIffSame` and `Accounts.WrongPasswordRejected` hold for the stand-in hash only. passlib's bcrypt uses only the first 72 UTF-8 bytes of a password, so two longer passwords with the same first 72 bytes verify alike; a password containing a NUL character makes it raise.
- Schema creation. `db.create_all()` at app.py:24-25 runs before the `User` and `Task` models are declared, so it creates no table. No code or migration in the repository creates `users` or `tasks` (the one migration creates `task`); the model assumes both tables exist.
- SQLAlchemy sessions, commits and transactions: each handler is one atomic step on the two maps. Same-task races between concurrent requests (last write wins) are not modelled.
- Ids: each table hands out increasing ids from 1 and never reuses one, as a PostgreSQL sequence does. SQLite can reuse the largest id after it is deleted. The model assumes only that a new id is absent from the table.
- The column lengths `String(80)` for usernames and `String(120)` for task text are checked by no code, and the model accepts any length. That matches SQLite, which does not enforce them. On PostgreSQL, the backend the URL rewrite exists for, a longer username or task text is refused at commit: the request fails with a server error and no row is added.
- The `owner_id` foreign key is not checked: a task may carry any owner id, as SQLite does by default.
- `Tasks.Listing` returns a set of task views. The order of the rows the query returns is unspecified, so the model leaves it out.
- Environment and configuration reads other than DATABASE_URL, the JWT secret key, and `app.run`.
- The Alembic migration `migrations/versions/a07bc19a6c98_sync_models.py` is generated DDL. It creates a `task` table without `owner_id`, which disagrees with `app.py`, and it is not part of this model.
