# Identity linking and role reconciliation for DiscordBotSS14, in Dafny

This project models the part of the Discord bot that links Discord users to their Space Station 14 accounts ("ckeys") and keeps each user's role level in a local store. It has four parts, one module each:

- `IdentityStore` (identity_store.dfy) models the SQLite `users` table behind `DBManager`. The table is the sequence of its rows in ROWID order. Each row has the auto-assigned `ID`, a `DiscordID` that the UNIQUE constraint keeps distinct, and the nullable `Ckey` and `RoleLevel`, with `Option` standing for NULL. `Contents()` is the abstract view: a map from Discord id to the pair of nullable columns. A ghost log `writes` records every `add_or_update_member` call the store receives. `Upsert` and `ApplyAll` state what one `add_or_update_member` call, and a run of them, do to that view.
- `RoleSync` (role_sync.dfy) models the periodic `read_role` tick. It checks the `not_set` guard, builds the role list and, for every member of every guild, computes the highest configured level among the member's roles, with a floor of 0. It then upserts that level with a NULL ckey.
- `SS14Auth` (ss14_login.dfy) models the `SS14Login` credential check. The object caches the anti-forgery token. The two HTTP responses are inputs, and a ghost log records the requests issued. `LoginSpec` is the reference function that the `Login` method is proved against, and the lemmas beside it state token caching, the error paths, the POST form and the success test. `UrlJoin` models the `urljoin` used by that test. The class constants are built from their parts: `BASE_URL` is `SCHEME + "//" + HOST + WEB_PATH` and `LOGIN_URL` is `BASE_URL + LOGIN_PATH`. They spell the same strings as the literals at classes/ss14login/ss14class.py:20-21.
- `LinkCommand` (link_command.dfy) models the `/loggin` command. It creates a fresh verifier, writes the link only on success, and answers with the `correct` or `error` localisation key.
- `Wrappers` (wrappers.dfy) holds `Option` and `Result`.

Every write runs in sequence. The tick loop and the command have no `await` before their store writes, so the model is sequential.

Both HTTP-status failures are the same exception type in the source (`requests.RequestException`). The model tells them apart as `PageStatus` and `SubmitStatus`, so a lemma can say which request failed. A missing token input is `TokenNotFound` (`SS14VerificationTokenError`).

The role-level table's values are integers. A TOML boolean is a Python `bool`, which is an `int`, so the `not_set` flag is truthy iff it is non-zero. A missing `not_set` key raises `KeyError` in the source; the tick models this as the outcome `MissingNotSet`, with no writes.

## Model

| member | source | states |
|---|---|---|
| `IdentityStore.DBManager.constructor` | classes/db_manager/DBClass.py:8-20 | opening a database keeps an existing `users` table as it was, or creates an empty one; the store is then valid (unique DiscordID, increasing ID) |
| `IdentityStore.DBManager.CreateTable` | classes/db_manager/DBClass.py:29-35 | CREATE TABLE IF NOT EXISTS: afterwards the table exists; if it already existed, every row is unchanged (idempotent); uniqueness is kept |
| `IdentityStore.DBManager.Get` | classes/db_manager/DBClass.py:37-53 | `__getitem__` returns the stored (Ckey, RoleLevel) for a known id and (NULL, NULL) for an unknown id, never an error (the intended lookup; see Findings) |
| `IdentityStore.FetchOneTable` | classes/db_manager/DBClass.py:47-53 | the first matching row that `fetchone` returns is the row the table view holds for the id, because DiscordID is unique |
| `IdentityStore.LookupBindingFails` | classes/db_manager/DBClass.py:48 | as written, passing `(discord_id)` binds an int id not at all and a string id once per character, so every real id fails to bind |
| `IdentityStore.DBManager.AddMember` | classes/db_manager/DBClass.py:66-77 | for an absent id the INSERT appends exactly (next ID, id, ckey, level), NULLs included, and no other entry changes; for a present id it fails with IntegrityError and the table is unchanged; uniqueness is kept |
| `IdentityStore.DBManager.UpdateMember` | classes/db_manager/DBClass.py:79-90 | the UPDATE replaces Ckey only with a non-NULL new ckey and RoleLevel only with a non-NULL new level; it does nothing for an unknown id and never touches other rows |
| `IdentityStore.TableUpdate` | classes/db_manager/DBClass.py:89 | rewriting every row with the COALESCE merge changes the table view only at the id's entry, and only if the id is present (`UpdatedTable`) |
| `IdentityStore.DBManager.AddOrUpdateMember` | classes/db_manager/DBClass.py:92-104 | insert-then-merge-on-IntegrityError is one `Upsert`: afterwards the id is present, with (ckey, level) if it was new and with (ckey ?? old ckey, level ?? old level) if it existed, and no other entry changes; the call is appended to the store's call log |
| `IdentityStore.Upsert` | classes/db_manager/DBClass.py:92-104 | after one upsert the id maps to the COALESCE merge of the new values into the old entry (a missing row read as two NULLs), and every other key and value is as before |
| `IdentityStore.ApplyAllAt` | classes/db_manager/DBClass.py:89-104 | after any run of upserts an id is present iff it was before or some call named it, and each field holds the last non-NULL value passed for it, or else its old value |
| `IdentityStore.MergeKeepsValues` | classes/db_manager/DBClass.py:89-104 | merge invariant: a field that holds a non-NULL value stays non-NULL through any later run of upserts, and keeps its exact value when all of them pass NULL for it |
| `IdentityStore.ApplyAllTwice` | classes/db_manager/DBClass.py:89-104 | repeating a run of upserts leaves the table as running it once |
| `IdentityStore.DBManager.AllUsers` | classes/db_manager/DBClass.py:108-120 | `get_all_users` is read-only and returns exactly the rows whose RoleLevel is non-NULL and non-zero, each with its DiscordID, Ckey and RoleLevel, with no id twice |
| `IdentityStore.SelectNonZeroSpec` | classes/db_manager/DBClass.py:117-119 | the three-valued `WHERE RoleLevel != 0` plus the comprehension keeps every non-NULL, non-zero row, returns only rows of the table, and never repeats an id |
| `RoleSync.RoleList` | bot/events/read_role.py:16-17 | the role list holds every (role id, level) entry of the configuration and nothing else: the `not_set` item is dropped |
| `RoleSync.MaxLevel` | bot/events/read_role.py:21-25 | the nested loops compute a level that is at least 0 and at least every configured level of a role the member holds, and is one of those levels unless it is 0; this is `MemberLevel` |
| `RoleSync.MemberLevelIsMax` | bot/events/read_role.py:21-25 | `MemberLevel` is max(0, the largest configured level among the member's roles) |
| `RoleSync.MaxLevelUnique` | bot/events/read_role.py:21-25 | those three conditions determine the level uniquely |
| `RoleSync.MemberLevelBounds` | bot/events/read_role.py:21-25 | the computed level is never negative, is 0 when the member holds no configured role, and bounds every configured level the member holds |
| `RoleSync.ReadRole` | bot/events/read_role.py:11-26 | a truthy or missing `not_set` flag means no store write; otherwise each member occurrence in each guild, in order, causes exactly one add_or_update_member(member.id, NULL, its level): the store's call log grows by exactly that run of calls, and the store ends as that run of upserts leaves it |
| `RoleSync.TickKeepsCkeys` | bot/events/read_role.py:26 | a tick never changes a stored ckey, and a row it creates has a NULL ckey |
| `RoleSync.LastOccurrenceWins` | bot/events/read_role.py:19-26 | for a member present in several guilds, the stored level is the one computed from its last occurrence in guild order |
| `RoleSync.TickLeavesOthers` | bot/events/read_role.py:19-26 | an id absent from every guild keeps its row, or its absence, exactly as before |
| `RoleSync.TickIdempotent` | bot/events/read_role.py:19-26 | running the tick twice on the same snapshot leaves the store as running it once |
| `SS14Auth.RelativeJoin` | classes/ss14login/ss14class.py:77 | for an http(s) base with a host and a path ending in '/', and a relative path, both made of unreserved characters and '/' with no empty and no dot segment, urljoin appends the path to the base |
| `SS14Auth.HostOnlyJoin` | classes/ss14login/ss14class.py:77 | against a base that is only a scheme and a host, urljoin puts such a relative path under "/" |
| `SS14Auth.ConstantsSpelled` | classes/ss14login/ss14class.py:20-21 | `BASE_URL` and `LOGIN_URL`, built from their parts, are exactly the two class literals |
| `SS14Auth.LoginUrlIsJoin` | classes/ss14login/ss14class.py:77 | urljoin(BASE_URL, "Identity/Account/Login") is LOGIN_URL |
| `SS14Auth.LastSlash` | classes/ss14login/ss14class.py:77 | the directory the merge keeps is the base's path up to its last '/' |
| `SS14Auth.SS14Login.constructor` | classes/ss14login/ss14class.py:23-27 | a fresh object has no cached token and has issued no request |
| `SS14Auth.SS14Login.GetVerificationToken` | classes/ss14login/ss14class.py:29-47 | the method issues one GET of LOGIN_URL; a status other than 200 raises and leaves the token unchanged; a page without the token input raises and leaves it unchanged; otherwise the token becomes the input's value |
| `SS14Auth.SS14Login.Login` | classes/ss14login/ss14class.py:49-80 | the result, the new cached token and the requests appended to the log are those of `LoginSpec` from the old token |
| `SS14Auth.LoginFetchesOnlyWithoutToken` | classes/ss14login/ss14class.py:63-64 | a login issues a token GET, once and first, exactly when the cached token is falsy (None or empty), and no GET otherwise |
| `SS14Auth.LoginPageFailure` | classes/ss14login/ss14class.py:37-39 | if the token GET status is not 200 the login raises with that status, the token is unchanged and no POST is issued |
| `SS14Auth.LoginTokenMissing` | classes/ss14login/ss14class.py:41-47 | if the page has no `__RequestVerificationToken` input the login raises, the token is unchanged and no POST is issued |
| `SS14Auth.LoginPosts` | classes/ss14login/ss14class.py:63-73 | once the token is known the login posts once, last, to LOGIN_URL with exactly the four fields (username, password, cached token, RememberMe "false"); the cached token is the fetched input's value unless a truthy one was already cached |
| `SS14Auth.LoginResultSpec` | classes/ss14login/ss14class.py:73-80 | the login returns a value exactly when the token is known and the POST status is 200; a POST status other than 200 raises with that status; the value is true iff the final URL differs from LOGIN_URL |
| `SS14Auth.CachedTokenFetchedOnce` | classes/ss14login/ss14class.py:63-64 | two logins on one object, the first of which fetched a truthy token, issue one GET in total, whatever the POSTs answered |
| `SS14Auth.FreshObjectsFetchEach` | classes/ss14login/ss14class.py:63-64 | logins on two fresh objects issue two GETs in total |
| `LinkCommand.OutcomeOf` | bot/commands/loggin.py:18-24 | the reply key is `('loggin','correct')` iff login returned true and `('loggin','error')` iff it returned false; an exception from login gives no reply |
| `LinkCommand.Loggin` | bot/commands/loggin.py:11-24 | the handler's outcome is that of a login from a fresh object with no token; on success the store receives exactly one add_or_update_member call, with the caller's id, the raw `login` text as ckey and a NULL level; otherwise, including when login raises, it receives none and is unchanged |
| `LinkCommand.LinkEffect` | bot/commands/loggin.py:20 | after a successful link the caller's ckey is the `login` argument (even an e-mail address), the caller's role level is kept (NULL for a new row), and no other row changes |
| `LinkCommand.CommandDecision` | bot/commands/loggin.py:18-22 | when both requests answer 200 and the page carries the token, the command answers success iff the redirects ended away from the login page, and error iff they stayed on it |

## Left out

- SQLite itself: the `data/` directory, the connection, cursors, `commit` and closing `__del__` (classes/db_manager/DBClass.py:22-27, 55-63). The table lives in memory as a field of the class.
- Errors in the store other than the UNIQUE constraint: a failing constructor is only logged, `add_or_update_member` logs any other exception, and `get_all_users` returns `None` after a `sqlite3.Error`. The model has no storage failures.
- A NULL Discord id, which the NOT NULL constraint would refuse. Every caller passes an integer id.
- TEXT affinity: integer Discord ids are stored as text and compared after conversion. The model uses one abstract integer key.
- SQLite's ROWID overflow rule, which picks a random ID once the largest ROWID is reached.
- The order of `get_all_users` is ROWID order in the model. The query has no ORDER BY, so the source does not promise it.
- `IdentityStore.DBManager.Get` models the intended lookup, not the line-48 binding error. The as-written behaviour is `BindAsWritten` (see Findings).
- The HTTP session, cookies, the User-Agent header, redirect following and HTML parsing are foreign calls. Their results are the `PageResponse` and `SubmitResponse` inputs.
- Transport exceptions from `session.get` and `session.post` (classes/ss14login/ss14class.py:37 and :73), such as `ConnectionError`, `Timeout` and `TooManyRedirects`, cannot be expressed as a `PageResponse` or a `SubmitResponse`. At the command each acts like `PageStatus` or `SubmitStatus`: it raises, writes nothing and sends no reply.
- How `requests` encodes a form field whose value is `None`. The model records the payload as the dictionary the source builds.
- `SS14Auth.UrlJoin` models only the shapes of reference used here: empty, with a scheme, network-path, absolute-path and relative-path. It differs from Python's `urljoin` in these cases: it does not remove dot segments; it does not drop the empty segments that `urljoin` filters out of a merged path (`a//b` against `/web/` gives `/web/a//b`, not `/web/a/b`); it treats a query- or fragment-only reference as a relative path; it returns a reference with a scheme unchanged, even one with the base's scheme; it ignores `uses_relative`, `uses_netloc`, scheme case and the characters `urlsplit` strips; and it reads whatever follows the scheme of a base without "//" as that base's path, so `UrlJoin("https:", "x")` is `"https:/x"` where `urljoin` gives `"https:///x"`. `RelativeJoin` and `HostOnlyJoin` state the join only where none of these cases arises.
- Discord plumbing: command registration, option metadata, reply delivery and ephemerality, the `tasks.loop` schedule and interval, and the log line of the disabled tick.
- `int(role_id)` parse failures. Role ids in the configuration are taken as already numeric.
- Localised strings (classes/lang/LangClass.py is not part of this model). Replies are modelled by their key only.
- Startup and shutdown wiring (main.py, bot/__init__.py, bot/events/on_ready.py, bot/events/on_close.py). These files hold no logic of the core.

## Findings

| source | as written | input that shows it | evidently intended | confidence | as-written member | corrected member |
|---|---|---|---|---|---|---|
| classes/db_manager/DBClass.py:48 | the parameters are `(discord_id)`, the bare value; sqlite3 binds a str once per character and refuses an int | an integer id such as `123456789012345678`, or the same id as an 18-character string: both fail to bind | the one-tuple `(discord_id,)`: the stored pair for a known id, two NULLs for an unknown one | not executed | `IdentityStore.LookupBindingFails` | `IdentityStore.DBManager.Get` |
