/** The four tables of the local chat store (users, messages, groups,
    group_members), the column list of `users` that the schema migration
    inspects, and the pure lookups the handlers run against the rows. */
module Tables {

  datatype Option<T> = None | Some(value: T)

  /** Why a handler gave up. Each is shown to the user in a message box,
      except NoUpdateStatus and UserNotFound, which are uncaught exceptions
      in a callback (AttributeError and TypeError). */
  datatype Error =
    | CredentialsRequired  // login with a blank username or password
    | DuplicateUser        // UNIQUE constraint on users.username
    | InvalidCredentials   // no row matches both username and password
    | DuplicateGroup       // UNIQUE constraint on groups.name
    | GroupNotFound        // no group has the requested name
    | UserNotFound         // the status lookup of the current user found no row
    | NoUpdateStatus       // ChatWindow has no attribute update_status

  /** What a handler did: changed the store, did nothing (blank input), or failed. */
  datatype Outcome = Done | Skipped | Failed(error: Error)

  datatype Result<T> = Ok(value: T) | Err(error: Error)

  /** A row of `users`. `status` is None when the row has no status value
      (the column does not exist yet). The cosmetic `color` column and the
      unread `id` column are not modelled. */
  datatype User = User(username: string, password: string, status: Option<string>)

  /** A row of `messages`; its timestamp and id are not modelled. */
  datatype Message = Message(sender: string, receiver: string, body: string)

  /** A row of `groups`: an INTEGER PRIMARY KEY and a UNIQUE name. */
  datatype Group = Group(id: nat, name: string)

  /** A row of `group_members`. */
  datatype Membership = Membership(groupId: nat, username: string)

  const StatusColumn: string := "status"
  const Offline: string := "offline"
  const Online: string := "online"

  /** The column names of `users` as `init_db` creates a new table. */
  const UsersColumns: seq<string> := ["id", "username", "password", StatusColumn, "color"]

  // ---------------------------------------------------------------- schema

  predicate HasStatusColumn(columns: seq<string>) {
    StatusColumn in columns
  }

  /** The columns after `update_db_schema`: the status column is added
      at the end exactly when it is missing; nothing is removed or moved. */
  function Migrate(columns: seq<string>): (r: seq<string>)
    ensures HasStatusColumn(r)
    ensures columns <= r
    ensures |r| <= |columns| + 1
    ensures HasStatusColumn(columns) <==> r == columns
    ensures forall c :: c in r ==> c in columns || c == StatusColumn
  {
    if StatusColumn !in columns then columns + [StatusColumn] else columns
  }

  /** Running the migration twice is the same as running it once. */
  lemma MigrateIdempotent(columns: seq<string>)
    ensures Migrate(Migrate(columns)) == Migrate(columns)
  {
  }

  /** A freshly created `users` table already has the status column. */
  lemma MigrateFreshSchema()
    ensures Migrate(UsersColumns) == UsersColumns
  {
  }

  /** The value a new or migrated row gets for `status`: the column default
      'offline' when the column exists, no value otherwise. */
  function DefaultStatus(columns: seq<string>): Option<string> {
    if HasStatusColumn(columns) then Some(Offline) else None
  }

  /** `ALTER TABLE users ADD COLUMN status TEXT DEFAULT 'offline'`: every
      existing row reads the default afterwards; no other column changes. */
  function FillStatus(users: seq<User>): (r: seq<User>)
    ensures |r| == |users|
    ensures forall i :: 0 <= i < |r| ==>
      r[i].username == users[i].username && r[i].password == users[i].password && r[i].status == Some(Offline)
  {
    seq(|users|, i requires 0 <= i < |users| => users[i].(status := Some(Offline)))
  }

  // ---------------------------------------------------------------- users

  predicate HasUser(users: seq<User>, name: string) {
    exists i :: 0 <= i < |users| && users[i].username == name
  }

  /** `SELECT * FROM users WHERE username = ? AND password = ?` finds a row. */
  predicate Authenticates(users: seq<User>, name: string, password: string)
    ensures Authenticates(users, name, password) ==> HasUser(users, name)
    ensures UniqueUsernames(users) ==>
      (Authenticates(users, name, password) <==>
        UserIndex(users, name).Some? && users[UserIndex(users, name).value].password == password)
  {
    exists i :: 0 <= i < |users| && users[i].username == name && users[i].password == password
  }

  predicate UniqueUsernames(users: seq<User>) {
    forall i, j :: 0 <= i < j < |users| ==> users[i].username != users[j].username
  }

  /** The position of the first row with the given username. */
  function UserIndex(users: seq<User>, name: string): (r: Option<nat>)
    ensures r.None? <==> !HasUser(users, name)
    ensures r.Some? ==> r.value < |users| && users[r.value].username == name
    ensures r.Some? ==> forall j :: 0 <= j < r.value ==> users[j].username != name
  {
    if users == [] then None
    else if users[0].username == name then Some(0)
    else
      match UserIndex(users[1..], name)
      case None =>
        assert forall i :: 1 <= i < |users| ==> users[i] == users[1..][i - 1];
        None
      case Some(k) =>
        assert users[k + 1] == users[1..][k];
        Some(k + 1)
  }

  /** `SELECT status FROM users WHERE username = ?` followed by
      `fetchone()[0]`: the status of the first matching row, or an error
      when no row matches (indexing None raises). */
  function StatusOf(users: seq<User>, name: string): (r: Result<Option<string>>)
    ensures r.Err? <==> !HasUser(users, name)
    ensures r.Err? ==> r == Err(UserNotFound)
    ensures r.Ok? ==> exists i :: 0 <= i < |users| && users[i].username == name && users[i].status == r.value
  {
    match UserIndex(users, name)
    case None => Err(UserNotFound)
    case Some(k) => Ok(users[k].status)
  }

  /** `UPDATE users SET status = ? WHERE username = ?`. */
  function SetStatus(users: seq<User>, name: string, status: string): (r: seq<User>)
    ensures |r| == |users|
    ensures forall i :: 0 <= i < |r| ==>
      r[i].username == users[i].username && r[i].password == users[i].password
  {
    seq(|users|, i requires 0 <= i < |users| =>
      if users[i].username == name then users[i].(status := Some(status)) else users[i])
  }

  /** The update really writes: afterwards the lookup of that user reads
      the new status, and no other user's status reads differently. */
  lemma SetStatusThenStatusOf(users: seq<User>, name: string, status: string, other: string)
    requires HasUser(users, name)
    ensures StatusOf(SetStatus(users, name, status), name) == Ok(Some(status))
    ensures other != name ==> StatusOf(SetStatus(users, name, status), other) == StatusOf(users, other)
  {
  }

  /** An update of a username no row has changes nothing. */
  lemma SetStatusMissing(users: seq<User>, name: string, status: string)
    requires !HasUser(users, name)
    ensures SetStatus(users, name, status) == users
  {
  }

  /** The update touches neither usernames nor passwords, so who exists
      and who can log in stay the same. */
  lemma SetStatusKeepsCredentials(users: seq<User>, name: string, status: string, u: string, p: string)
    ensures HasUser(SetStatus(users, name, status), u) <==> HasUser(users, u)
    ensures Authenticates(SetStatus(users, name, status), u, p) <==> Authenticates(users, u, p)
    ensures UniqueUsernames(SetStatus(users, name, status)) <==> UniqueUsernames(users)
  {
  }

  /** Under the UNIQUE constraint a username has one password: once a
      pair logs in, the same username with any other password does not. */
  lemma WrongPasswordRejected(users: seq<User>, name: string, password: string, wrong: string)
    requires UniqueUsernames(users)
    requires Authenticates(users, name, password)
    requires wrong != password
    ensures !Authenticates(users, name, wrong)
  {
  }

  /** A user added by sign-up reads back the column default: 'offline'
      once the status column exists, no value before. It keeps reading so
      until an UPDATE writes another status (`SetStatusThenStatusOf`). */
  lemma SignUpStatusIsDefault(columns: seq<string>, users: seq<User>, name: string, password: string)
    requires !HasUser(users, name)
    ensures HasStatusColumn(columns) ==>
      StatusOf(users + [User(name, password, DefaultStatus(columns))], name) == Ok(Some(Offline))
    ensures !HasStatusColumn(columns) ==>
      StatusOf(users + [User(name, password, DefaultStatus(columns))], name) == Ok(None)
  {
    var after := users + [User(name, password, DefaultStatus(columns))];
    assert after[|users|].username == name;
    assert forall j :: 0 <= j < |users| ==> after[j] == users[j];
  }

  /** A row appended for a new username keeps usernames unique, and that
      username and password then log in. */
  lemma SignUpThenLogin(users: seq<User>, name: string, password: string, status: Option<string>)
    requires UniqueUsernames(users)
    requires !HasUser(users, name)
    ensures UniqueUsernames(users + [User(name, password, status)])
    ensures Authenticates(users + [User(name, password, status)], name, password)
  {
    var after := users + [User(name, password, status)];
    assert after[|users|].username == name && after[|users|].password == password;
    forall i, j | 0 <= i < j < |after| ensures after[i].username != after[j].username {
      if j < |users| {
        assert after[i] == users[i] && after[j] == users[j];
      } else {
        assert after[i] == users[i];
      }
    }
  }

  // ---------------------------------------------------------------- groups

  predicate HasGroup(groups: seq<Group>, name: string) {
    exists i :: 0 <= i < |groups| && groups[i].name == name
  }

  predicate UniqueGroupNames(groups: seq<Group>) {
    forall i, j :: 0 <= i < j < |groups| ==> groups[i].name != groups[j].name
  }

  predicate UniqueGroupIds(groups: seq<Group>) {
    forall i, j :: 0 <= i < j < |groups| ==> groups[i].id != groups[j].id
  }

  function GroupIds(groups: seq<Group>): (r: seq<nat>)
    ensures |r| == |groups|
    ensures forall i :: 0 <= i < |r| ==> r[i] == groups[i].id
  {
    seq(|groups|, i requires 0 <= i < |groups| => groups[i].id)
  }

  /** The key sqlite assigns to a row inserted without one into a table
      whose INTEGER PRIMARY KEY values are `ids`: one more than the largest
      key, or 1 for an empty table. It differs from every key in use.
      (sqlite's fallback once the largest key is 2^63 - 1 is not modelled.) */
  function NextRowId(ids: seq<nat>): (r: nat)
    ensures r >= 1
    ensures forall i :: 0 <= i < |ids| ==> ids[i] < r
    ensures ids == [] ==> r == 1
    ensures ids != [] ==> r - 1 in ids
  {
    if ids == [] then 1
    else
      var rest := NextRowId(ids[1..]);
      assert forall i :: 1 <= i < |ids| ==> ids[i] == ids[1..][i - 1];
      if ids[0] + 1 > rest then ids[0] + 1 else rest
  }

  /** `SELECT id FROM groups WHERE name = ?` followed by `fetchone()`:
      the id of the first group with that name. */
  function FindGroup(groups: seq<Group>, name: string): (r: Option<nat>)
    ensures r.None? <==> !HasGroup(groups, name)
    ensures r.Some? ==> exists i :: 0 <= i < |groups| && groups[i].name == name && groups[i].id == r.value
  {
    if groups == [] then None
    else if groups[0].name == name then Some(groups[0].id)
    else
      var rest := FindGroup(groups[1..], name);
      assert forall i :: 1 <= i < |groups| ==> groups[i] == groups[1..][i - 1];
      assert HasGroup(groups[1..], name) ==> HasGroup(groups, name);
      rest
  }

  /** Under the UNIQUE constraint the lookup returns the id of THE group
      with that name. */
  lemma FindGroupExact(groups: seq<Group>, k: nat)
    requires UniqueGroupNames(groups)
    requires k < |groups|
    ensures FindGroup(groups, groups[k].name) == Some(groups[k].id)
  {
  }

  /** A group appended under a new name with the next row id keeps names
      and ids unique. */
  lemma CreateGroupKeepsUnique(groups: seq<Group>, name: string)
    requires UniqueGroupNames(groups) && UniqueGroupIds(groups)
    requires !HasGroup(groups, name)
    ensures UniqueGroupNames(groups + [Group(NextRowId(GroupIds(groups)), name)])
    ensures UniqueGroupIds(groups + [Group(NextRowId(GroupIds(groups)), name)])
  {
  }

  // ---------------------------------------------------------------- the store

  /** What the UNIQUE and PRIMARY KEY constraints guarantee of the tables,
      and that rows have no status value while the column does not exist. */
  predicate Consistent(columns: seq<string>, users: seq<User>, groups: seq<Group>) {
    && UniqueUsernames(users)
    && UniqueGroupNames(groups)
    && UniqueGroupIds(groups)
    && (!HasStatusColumn(columns) ==> forall i :: 0 <= i < |users| ==> users[i].status.None?)
  }
}
