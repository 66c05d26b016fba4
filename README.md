# XChat local chat store, modelled in Dafny

XChat is a desktop chat client. Everything it stores lives in one local
sqlite file, `xchat.db`, with four tables:

- `users`: username (UNIQUE), password, status (default `'offline'`);
- `messages`: sender, receiver, body;
- `groups`: id (INTEGER PRIMARY KEY), name (UNIQUE);
- `group_members`: group id, username.

The Tk event handlers read and write these tables directly. This project
models that store and the store logic of every handler:

- the login screen (`XChatApp`): `sign_up`, `login`, `update_status`;
- the chat window (`ChatWindow`): `send_message`, `change_status`,
  `create_group`, `join_group`, the `update_chat` poll tick and the
  `check_and_notify` decision;
- the start-up code: `init_db` and the `update_db_schema` migration.

Modules:

- `Tables` (tables.dfy): the row datatypes, the column list of `users`,
  `Migrate`, and the SQL statements as pure functions over sequences of rows
  (UNIQUE lookups, `UPDATE ... WHERE username = ?`, sqlite's choice of a new
  row id, `SELECT id FROM groups WHERE name = ?`). Lemmas state what those
  statements guarantee.
- `Feed` (feed.dfy): the visibility filter `receiver = 'public' OR receiver =
  ?`, the line format `sender: message\n`, the rendered transcript and the
  `status == 'online'` decision, with their lemmas.
- `Store` (store.dfy): class `Database` holds the five pieces of state as
  `seq` fields: the `users` column list and the four tables. Its `Valid()` is
  what the UNIQUE and PRIMARY KEY constraints guarantee. It has `init_db` for
  a new file and for an existing one (`CREATE TABLE IF NOT EXISTS` keeps what
  is there), and the migration as a method.
- `Client` (client.dfy): classes `XChatApp` and `ChatWindow`. Each handler is
  a method that updates the database's fields, and its `ensures` states the
  new content of every table. `UpdateChat` clears the display and refills it
  in a `for` loop, proved equal to `Feed.Transcript`. Two methods at the end,
  `SignUpAndLogIn` and `PublicChat`, are client code that uses only these
  contracts. They show alice and bob signing up and logging in, a wrong
  password being rejected, alice's own alert firing when she posts, and her
  line reaching bob's next tick.

Dialog input becomes method parameters. A cancelled dialog returns None, and
an empty entry returns `""`; the source treats both as false, so both are
`""` here. Message boxes become the returned `Outcome`:

- `Done`: the store changed;
- `Skipped`: blank input, and nothing happened;
- `Failed(e)`: the handler reported error `e`.

Messages are kept in insertion order. The SELECT has no ORDER BY, so nothing
beyond insertion order is claimed.

Facts about the source that the model keeps:

- `update_status` is a plain UPDATE (XChat.py:127), not an upsert. An unknown
  username changes nothing.
- The status lookup at XChat.py:223-224 raises on a missing row:
  `fetchone()` returns None, and `[0]` on None is a TypeError. The model
  returns this as the error value `UserNotFound`.
- The visible-messages SELECT (XChat.py:213) has no ORDER BY: the query
  does not sort the rows, and the model takes them in insertion order.
- `change_status` (XChat.py:176-179) stores nothing (see Findings).

## Model

| member | source | states |
|---|---|---|
| Tables.Migrate | XChat.py:42-46 | the status column is added exactly when it is missing; existing columns stay, in order, as a prefix; no other column appears |
| Tables.MigrateIdempotent | XChat.py:39-46 | migrating twice gives the same columns as migrating once |
| Tables.MigrateFreshSchema | XChat.py:12-18 | a table created by `init_db` already has the status column, so the migration leaves it alone |
| Tables.FillStatus | XChat.py:45 | after `ADD COLUMN status DEFAULT 'offline'` every existing row reads 'offline' and keeps its username and password |
| Tables.SignUpStatusIsDefault | XChat.py:118 | a user inserted by sign-up (which names no status, so the column default of line 16 applies), under a username no row has, reads back status 'offline' once the status column exists, and no status before the migration |
| Tables.Authenticates | XChat.py:101-103 | the login SELECT finds a row only for an existing user; with unique usernames it finds one exactly when that user's row has the given password |
| Tables.StatusOf | XChat.py:223-224 | the status lookup fails with UserNotFound exactly when the user has no row; otherwise it returns the status stored in a row of that user |
| Tables.UserIndex | XChat.py:223-224 | the status lookup finds the first row with the username, and finds none exactly when no row has it |
| Tables.SetStatus | XChat.py:127 | the status UPDATE keeps the number of rows and every row's username and password |
| Tables.SetStatusThenStatusOf | XChat.py:124-128 | after the update, the user's stored status reads as the new value; every other user's status reads as before |
| Tables.SetStatusMissing | XChat.py:127 | an update for a username with no row leaves the table unchanged |
| Tables.SetStatusKeepsCredentials | XChat.py:127 | the update changes neither who exists, who can log in, nor the uniqueness of usernames |
| Tables.WrongPasswordRejected | XChat.py:99-109 | under the UNIQUE username constraint, once (u, p) logs in, u with any other password does not |
| Tables.SignUpThenLogin | XChat.py:114-119 | a new username appended keeps usernames unique, and that username and password then log in |
| Tables.NextRowId | XChat.py:26-29 | a new group id is one more than the largest id in use (1 for an empty table), so it differs from every existing id |
| Tables.FindGroup | XChat.py:198-201 | the name lookup fails exactly when no group has the name; otherwise it returns the id of a group with that name |
| Tables.FindGroupExact | XChat.py:198-201 | with unique names, looking up a group's name returns that group's id |
| Tables.CreateGroupKeepsUnique | XChat.py:187 | appending a group with a new name and the next row id keeps names and ids unique |
| Feed.Visible | XChat.py:213-214 | the query returns exactly the messages whose receiver is 'public' or the user, and never more rows than the table has |
| Feed.VisibleCounts | XChat.py:213-214 | one row per stored message: a visible message occurs in the result as many times as it is stored, an invisible one not at all |
| Feed.LineFields | XChat.py:216 | a transcript line is the sender, then ": ", then the body, then a newline, and splits back into those parts |
| Feed.RenderShape | XChat.py:215-216 | the rendered text is empty exactly when there are no rows, and otherwise ends with a newline |
| Feed.Transcript | XChat.py:209-216 | a tick shows an empty display exactly when no stored message is addressed to 'public' or to the user |
| Feed.NotifyDecision | XChat.py:223-225 | the decision fails with UserNotFound exactly when the user has no row; it says to notify only if a row of that user stores 'online' |
| Feed.RenderAppend | XChat.py:215-216 | the transcript is built line by line: rendering a concatenation of messages concatenates their renderings |
| Feed.VisibleAppend | XChat.py:213 | a new message joins the user's view at the end exactly when it is addressed to 'public' or to that user |
| Feed.TranscriptAfterInsert | XChat.py:209-216 | after one insert, the next tick shows the old transcript plus that message's line when it is visible, and the old transcript unchanged otherwise |
| Feed.AllPublicVisible | XChat.py:213-214 | when every stored message is public, the query returns the whole table, in insertion order |
| Feed.AllPublicSeenByAll | XChat.py:213-216 | when every message is public, every user sees the whole table in the same order, so any two users' transcripts are equal |
| Feed.NotifyExact | XChat.py:223-226 | with unique usernames, the alert fires exactly when the user's row stores exactly 'online'; the lookup fails exactly when the user has no row |
| Store.Database.InitDb | XChat.py:9-37 | a new file has the four tables, all empty, and the full `users` column list including status |
| Store.Database.Open | XChat.py:12-36 | on an existing file, every table and the `users` columns are kept as they were |
| Store.Database.UpdateDbSchema | XChat.py:39-46 | adds status only when missing, filling 'offline' into existing rows; other tables are unchanged; when already migrated nothing changes |
| Client.XChatApp.SignUp | XChat.py:111-122 | blank input: nothing happens; an existing username: DuplicateUser, and no table changes; otherwise exactly one user (username, password, default status) is appended and the other tables are unchanged |
| Client.XChatApp.UpdateStatus | XChat.py:124-128 | `users` becomes the status UPDATE of that username; every other table is unchanged |
| Client.XChatApp.Login | XChat.py:92-109 | blank input is rejected before any lookup; otherwise login succeeds exactly when a row matches both username and password; on success the session is recorded, the status is set and a chat window opens showing its transcript; on any failure nothing changes |
| Client.XChatApp.OpenChatWindow | XChat.py:130-132 | the new window belongs to the logged-in user, uses the same database and shows that user's transcript |
| Client.ChatWindow.constructor | XChat.py:135-163 | a new chat window shows the transcript at once (its first `update_chat` tick) |
| Client.ChatWindow.UpdateChat | XChat.py:208-217 | the display equals the transcript of the visible messages, whatever it showed before, and the store is only read, so a second tick with no insert shows the same text |
| Client.ChatWindow.CheckAndNotify | XChat.py:220-226 | alerts exactly when the current user's row stores 'online'; fails with UserNotFound exactly when the user has no row |
| Client.ChatWindow.SendMessage | XChat.py:165-174 | blank text changes nothing; otherwise exactly one message (current user, 'public', text) is appended, users, groups and memberships are unchanged, and the alert follows the sender's stored status |
| Client.ChatWindow.ChangeStatusAsWritten | XChat.py:176-179 | as written: any non-blank status fails with a missing `update_status` attribute, and nothing is stored |
| Client.ChatWindow.ChangeStatus | XChat.py:176-179 | as intended: a non-blank status updates the current user's rows; a blank one changes nothing; other tables are unchanged |
| Client.ChatWindow.CreateGroup | XChat.py:181-191 | blank name: nothing happens; an existing name: DuplicateGroup, and no table changes; otherwise exactly one group is appended, with a fresh id |
| Client.ChatWindow.JoinGroup | XChat.py:193-206 | blank name: nothing happens; an unknown name: GroupNotFound, and no membership is inserted; a known name: the (group id, current user) row is appended even if that pair already exists |

## Left out

- Widget construction, layout, themes and message-box or dialog prompts (XChat.py:52-90, 135-160): presentation only. Dialog input is a parameter and the message shown is the returned `Outcome`.
- The desktop notification call (XChat.py:228-233): a call into the operating system. Only the decision whether to notify is modelled.
- The one-second self-rescheduling timer and the Tk main loop (XChat.py:218, 235-238): event-loop scheduling. One tick of `update_chat` is modelled.
- sqlite connections, commits and the `PRAGMA table_info` plumbing (XChat.py:10, 40-43): I/O. The database is in-memory state, and the PRAGMA result is the `userColumns` field.
- The `timestamp` column and its wall-clock default, the cosmetic `color` column, and the never-read `id` columns of `users`, `messages` and `group_members`. Group ids are modelled because `join_group` reads them.
- FOREIGN KEY clauses (XChat.py:34-35): sqlite does not enforce them without a pragma, so `JoinGroup` does not check that the user exists.
- Group ids outside what the app itself inserts: sqlite falls back to a random unused key once the largest key is 9223372036854775807, and an existing file may hold negative keys (`Group.id` is a `nat`). The app's own inserts start at 1 and never come near the limit, so neither case is modelled.
- An existing file is assumed to hold only values the app itself writes. In particular every message body is non-NULL: the `message` column is nullable (XChat.py:23) and `update_chat` would show a NULL body as `sender: None`, but the app's own insert (XChat.py:167) never writes NULL, so `Message.body` is a string and `Open` cannot load such a row.
- Any other storage failure (a locked or corrupt file, disk errors): sqlite's behaviour under them is not modelled.
- The handlers that read or write `status` (login, update_status, send_message, change_status, check_and_notify) require that the migration has run. Before that sqlite would raise "no such column". The source's top level (XChat.py:48-49) runs the migration before any window exists, so that error path is not modelled.
- The status chosen at the login screen comes from a menu of online, offline and dnd (XChat.py:88-90). It is modelled as any string, as the status column accepts any text.

## Findings

| source | as written | input that shows it | evidently intended | confidence | as-written member | corrected member |
|---|---|---|---|---|---|---|
| XChat.py:176-179 | `ChatWindow.change_status` calls `self.update_status`, but only `XChatApp` defines `update_status`, so the call raises AttributeError in the Tk callback and no status is stored | press Status in the chat window and enter `dnd` | store the entered status for the current user, as `XChatApp.update_status` does | high, not executed | Client.ChatWindow.ChangeStatusAsWritten | Client.ChatWindow.ChangeStatus |
