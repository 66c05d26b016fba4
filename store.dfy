/** The database file `xchat.db` held in memory: the four tables and the
    column list of `users`, with `init_db` and `update_db_schema`. */
module Store {
  import opened Tables

  class Database {
    var userColumns: seq<string>
    var users: seq<User>
    var messages: seq<Message>
    var groups: seq<Group>
    var members: seq<Membership>

    /** The UNIQUE and PRIMARY KEY constraints hold of the stored rows. */
    ghost predicate Valid()
      reads this
    {
      Consistent(userColumns, users, groups)
    }

    /** `update_db_schema` has run: `users` has its status column. */
    ghost predicate Migrated()
      reads this
    {
      HasStatusColumn(userColumns)
    }

    /** `init_db` on a new file: the four tables, created empty. */
    constructor InitDb()
      ensures Valid() && Migrated()
      ensures userColumns == UsersColumns
      ensures users == [] && messages == [] && groups == [] && members == []
    {
      userColumns := UsersColumns;
      users, messages, groups, members := [], [], [], [];
    }

    /** `init_db` on an existing file: CREATE TABLE IF NOT EXISTS keeps
        every table, and the `users` columns, as they were. */
    constructor Open(columns: seq<string>, users: seq<User>, messages: seq<Message>,
                     groups: seq<Group>, members: seq<Membership>)
      requires Consistent(columns, users, groups)
      ensures Valid()
      ensures userColumns == columns && this.users == users && this.messages == messages
      ensures this.groups == groups && this.members == members
    {
      userColumns := columns;
      this.users, this.messages, this.groups, this.members := users, messages, groups, members;
    }

    /** `update_db_schema`: adds the status column, with default 'offline'
        for every existing row, only when `users` does not have it. Rows of
        every table are kept; running it again changes nothing. */
    method UpdateDbSchema()
      requires Valid()
      modifies this
      ensures Valid() && Migrated()
      ensures userColumns == Migrate(old(userColumns))
      ensures users == if old(Migrated()) then old(users) else FillStatus(old(users))
      ensures messages == old(messages) && groups == old(groups) && members == old(members)
      ensures old(Migrated()) ==> userColumns == old(userColumns) && users == old(users)
    {
      if StatusColumn !in userColumns {
        userColumns := userColumns + [StatusColumn];
        users := FillStatus(users);
      }
    }
  }
}
