/** The two windows of the chat client and the store logic inside their
    event handlers. Dialog and entry input arrive as parameters (a
    cancelled dialog is the empty string, which the handlers treat the same
    way); message boxes become the returned Outcome. */
module Client {
  import opened Tables
  import opened Feed
  import opened Store

  /** The login screen. */
  class XChatApp {
    const db: Database
    /** Set by a successful login. */
    var username: Option<string>
    var status: Option<string>

    constructor (db: Database)
      ensures this.db == db && username == None && status == None
    {
      this.db := db;
      username, status := None, None;
    }

    /** `sign_up`: with a non-blank username and password, inserts a user
        with the default status unless the UNIQUE constraint on usernames
        rejects it; with a blank one, does nothing. */
    method SignUp(user: string, password: string) returns (r: Outcome)
      requires db.Valid()
      modifies db
      ensures db.Valid()
      ensures r == (if user == "" || password == "" then Skipped
                    else if HasUser(old(db.users), user) then Failed(DuplicateUser)
                    else Done)
      ensures db.users == if r == Done
                          then old(db.users) + [User(user, password, DefaultStatus(old(db.userColumns)))]
                          else old(db.users)
      ensures db.userColumns == old(db.userColumns) && db.messages == old(db.messages)
      ensures db.groups == old(db.groups) && db.members == old(db.members)
    {
      if user != "" && password != "" {
        if HasUser(db.users, user) {
          r := Failed(DuplicateUser);
        } else {
          SignUpThenLogin(db.users, user, password, DefaultStatus(db.userColumns));
          db.users := db.users + [User(user, password, DefaultStatus(db.userColumns))];
          r := Done;
        }
      } else {
        r := Skipped;
      }
    }

    /** `update_status`: every row with that username gets the status. */
    method UpdateStatus(user: string, newStatus: string)
      requires db.Valid() && db.Migrated()
      modifies db
      ensures db.Valid() && db.Migrated()
      ensures db.users == SetStatus(old(db.users), user, newStatus)
      ensures db.userColumns == old(db.userColumns) && db.messages == old(db.messages)
      ensures db.groups == old(db.groups) && db.members == old(db.members)
    {
      SetStatusKeepsCredentials(db.users, user, newStatus, user, "");
      db.users := SetStatus(db.users, user, newStatus);
    }

    /** `login`: rejects a blank username or password before any lookup;
        otherwise succeeds exactly when a row matches both, and then
        records the session, stores the selected status and opens the chat
        window. A failed login changes nothing. */
    method Login(user: string, password: string, selected: string) returns (r: Outcome, w: ChatWindow?)
      requires db.Valid() && db.Migrated()
      modifies this, db
      ensures db.Valid() && db.Migrated()
      ensures r == (if user == "" || password == "" then Failed(CredentialsRequired)
                    else if Authenticates(old(db.users), user, password) then Done
                    else Failed(InvalidCredentials))
      ensures db.users == if r == Done then SetStatus(old(db.users), user, selected) else old(db.users)
      ensures db.userColumns == old(db.userColumns) && db.messages == old(db.messages)
      ensures db.groups == old(db.groups) && db.members == old(db.members)
      ensures r == Done ==> username == Some(user) && status == Some(selected)
      ensures r == Done ==> w != null && fresh(w) && w.db == db && w.username == user
                            && w.display == Transcript(db.messages, user)
      ensures r != Done ==> username == old(username) && status == old(status) && w == null
    {
      w := null;
      if user == "" || password == "" {
        r := Failed(CredentialsRequired);
        return;
      }
      if Authenticates(db.users, user, password) {
        username := Some(user);
        status := Some(selected);
        UpdateStatus(user, selected);
        w := OpenChatWindow();
        r := Done;
      } else {
        r := Failed(InvalidCredentials);
      }
    }

    /** `open_chat_window`: a chat window for the logged-in user. */
    method OpenChatWindow() returns (w: ChatWindow)
      requires username.Some?
      ensures fresh(w) && w.db == db && w.username == username.value
      ensures w.display == Transcript(db.messages, username.value)
    {
      w := new ChatWindow(db, username.value);
    }
  }

  /** The chat window of one logged-in user. */
  class ChatWindow {
    const db: Database
    const username: string
    /** The text of the chat display. */
    var display: string

    /** The window shows the transcript as soon as it opens. */
    constructor (db: Database, username: string)
      ensures this.db == db && this.username == username
      ensures display == Transcript(db.messages, username)
    {
      this.db := db;
      this.username := username;
      display := "";
      new;
      UpdateChat();
    }

    /** One tick of `update_chat`: the display is cleared and refilled
        with one line per visible message, so it is a function of the
        messages table alone, whatever it showed before; the store is only
        read, so a second tick with no insert in between shows the same. */
    method UpdateChat()
      modifies this
      ensures display == Transcript(db.messages, username)
    {
      display := "";
      var rows := Visible(db.messages, username);
      for i := 0 to |rows|
        invariant display == Render(rows[..i])
      {
        assert rows[..i + 1][..i] == rows[..i];
        display := display + Line(rows[i]);
      }
      assert rows[..|rows|] == rows;
    }

    /** `check_and_notify`: whether to raise the desktop alert. It fires
        exactly when the current user's stored status is 'online'; the
        lookup fails when the user has no row. */
    method CheckAndNotify() returns (r: Result<bool>)
      requires db.Valid() && db.Migrated()
      ensures r.Err? <==> !HasUser(db.users, username)
      ensures r.Err? ==> r == Err(UserNotFound)
      ensures r == Ok(true) <==>
        exists i :: 0 <= i < |db.users| && db.users[i].username == username && db.users[i].status == Some(Online)
    {
      NotifyExact(db.users, username);
      match UserIndex(db.users, username)
      case None =>
        r := Err(UserNotFound);
      case Some(k) =>
        r := Ok(db.users[k].status == Some(Online));
    }

    /** `send_message`: with non-blank text, appends one public message from
        the current user, then checks whether to alert (a failed lookup
        surfaces after the insert); with blank text, does nothing. */
    method SendMessage(text: string) returns (r: Outcome, alert: bool)
      requires db.Valid() && db.Migrated()
      modifies db
      ensures db.Valid() && db.Migrated()
      ensures db.messages == if text == "" then old(db.messages)
                             else old(db.messages) + [Message(username, Public, text)]
      ensures db.userColumns == old(db.userColumns) && db.users == old(db.users)
      ensures db.groups == old(db.groups) && db.members == old(db.members)
      ensures text == "" ==> r == Skipped && !alert
      ensures text != "" ==> r == (if HasUser(db.users, username) then Done else Failed(UserNotFound))
      ensures alert <==> r == Done && NotifyDecision(db.users, username) == Ok(true)
    {
      alert := false;
      if text == "" {
        r := Skipped;
        return;
      }
      db.messages := db.messages + [Message(username, Public, text)];
      var check := CheckAndNotify();
      match check
      case Err(e) =>
        r := Failed(e);
      case Ok(b) =>
        r := Done;
        alert := b;
    }

    /** `change_status` as written: it calls `self.update_status`, which
        ChatWindow does not have, so a non-blank status raises
        AttributeError before the store is touched. */
    method ChangeStatusAsWritten(newStatus: string) returns (r: Outcome)
      ensures r == if newStatus == "" then Skipped else Failed(NoUpdateStatus)
    {
      if newStatus != "" {
        r := Failed(NoUpdateStatus);
      } else {
        r := Skipped;
      }
    }

    /** `change_status` as intended: a non-blank status is stored for the
        current user as `update_status` would; a blank one does nothing. */
    method ChangeStatus(newStatus: string) returns (r: Outcome)
      requires db.Valid() && db.Migrated()
      modifies db
      ensures db.Valid() && db.Migrated()
      ensures r == if newStatus == "" then Skipped else Done
      ensures db.users == if newStatus == "" then old(db.users) else SetStatus(old(db.users), username, newStatus)
      ensures db.userColumns == old(db.userColumns) && db.messages == old(db.messages)
      ensures db.groups == old(db.groups) && db.members == old(db.members)
    {
      if newStatus != "" {
        SetStatusKeepsCredentials(db.users, username, newStatus, username, "");
        db.users := SetStatus(db.users, username, newStatus);
        r := Done;
      } else {
        r := Skipped;
      }
    }

    /** `create_group`: with a non-blank name, inserts a group with the next
        row id unless the UNIQUE constraint on names rejects it. */
    method CreateGroup(name: string) returns (r: Outcome)
      requires db.Valid()
      modifies db
      ensures db.Valid()
      ensures r == (if name == "" then Skipped
                    else if HasGroup(old(db.groups), name) then Failed(DuplicateGroup)
                    else Done)
      ensures db.groups == if r == Done
                           then old(db.groups) + [Group(NextRowId(GroupIds(old(db.groups))), name)]
                           else old(db.groups)
      ensures db.userColumns == old(db.userColumns) && db.users == old(db.users)
      ensures db.messages == old(db.messages) && db.members == old(db.members)
    {
      if name != "" {
        if HasGroup(db.groups, name) {
          r := Failed(DuplicateGroup);
        } else {
          CreateGroupKeepsUnique(db.groups, name);
          db.groups := db.groups + [Group(NextRowId(GroupIds(db.groups)), name)];
          r := Done;
        }
      } else {
        r := Skipped;
      }
    }

    /** `join_group`: with a non-blank name of an existing group, appends
        the membership of the current user in it, even when that pair is
        already recorded; an unknown name inserts nothing. The user is not
        checked against `users` (foreign keys are not enforced). */
    method JoinGroup(name: string) returns (r: Outcome)
      requires db.Valid()
      modifies db
      ensures db.Valid()
      ensures r == (if name == "" then Skipped
                    else if HasGroup(old(db.groups), name) then Done
                    else Failed(GroupNotFound))
      ensures r == Done ==> db.members == old(db.members) + [Membership(FindGroup(old(db.groups), name).value, username)]
      ensures r == Done ==> exists i :: 0 <= i < |db.groups| && db.groups[i].name == name
                                        && db.members[|db.members| - 1].groupId == db.groups[i].id
      ensures r != Done ==> db.members == old(db.members)
      ensures db.userColumns == old(db.userColumns) && db.users == old(db.users)
      ensures db.messages == old(db.messages) && db.groups == old(db.groups)
    {
      if name == "" {
        r := Skipped;
        return;
      }
      var group := FindGroup(db.groups, name);
      if group.Some? {
        db.members := db.members + [Membership(group.value, username)];
        r := Done;
      } else {
        r := Failed(GroupNotFound);
      }
    }
  }

  /** Two users on one database: alice and bob sign up, a second sign-up
      as alice is refused, and each then logs in with a chosen status
      after bob's wrong password is rejected. */
  method SignUpAndLogIn()
  {
    var db := new Database.InitDb();
    var app := new XChatApp(db);
    assert DefaultStatus(db.userColumns) == Some(Offline);
    var r := app.SignUp("alice", "secret");
    assert r == Done;
    r := app.SignUp("bob", "hunter2");
    assert db.users[0].username == "alice";
    assert r == Done;
    r := app.SignUp("alice", "other");
    assert r == Failed(DuplicateUser);
    r := app.SignUp("carol", "");
    assert r == Skipped;

    var alice: ChatWindow?;
    r, alice := app.Login("alice", "secret", Online);
    assert db.users[0].username == "alice" && db.users[0].password == "secret";
    assert r == Done;
    assert db.users[1].username == "bob" && db.users[1].password == "hunter2";
    var other := new XChatApp(db);
    var bob: ChatWindow?;
    r, bob := other.Login("bob", "wrong", Offline);
    assert r == Failed(InvalidCredentials) by {
      WrongPasswordRejected(db.users, "bob", "hunter2", "wrong");
    }
    r, bob := other.Login("bob", "hunter2", Offline);
    assert r == Done;
  }

  /** alice ('online') and bob ('offline') have their chat windows open:
      alice's message raises her own alert and appears on bob's next tick. */
  method PublicChat()
  {
    var db := new Database.Open(UsersColumns,
      [User("alice", "secret", Some(Online)), User("bob", "hunter2", Some(Offline))], [], [], []);
    var alice := new ChatWindow(db, "alice");
    var bob := new ChatWindow(db, "bob");
    assert UserIndex(db.users, "alice") == Some(0);
    var r, alert := alice.SendMessage("hello");
    assert r == Done && alert;
    var hello := Message("alice", Public, "hello");
    assert db.messages == [] + [hello];
    bob.UpdateChat();
    assert Transcript([], "bob") == "";
    TranscriptAfterInsert([], hello, "bob");
    assert bob.display == Line(hello);
  }
}
