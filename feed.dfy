/** The chat feed: which messages a user sees, how the transcript is
    rendered from them, and the decision whether sending alerts. */
module Feed {
  import opened Tables

  /** The receiver that addresses every user. */
  const Public: string := "public"

  /** The WHERE clause `receiver = 'public' OR receiver = ?`. */
  predicate IsVisibleTo(m: Message, user: string) {
    m.receiver == Public || m.receiver == user
  }

  /** The rows `SELECT sender, message FROM messages WHERE receiver =
      'public' OR receiver = ?` returns, in insertion order: exactly the
      messages addressed to the public marker or to the user. */
  function Visible(messages: seq<Message>, user: string): (r: seq<Message>)
    ensures |r| <= |messages|
    ensures forall m :: m in r <==> m in messages && IsVisibleTo(m, user)
    decreases |messages|
  {
    if messages == [] then []
    else
      var init, last := messages[..|messages| - 1], messages[|messages| - 1];
      assert messages == init + [last];
      var rest := Visible(init, user);
      if IsVisibleTo(last, user) then rest + [last] else rest
  }

  /** The query returns one row per stored visible message: each message
      occurs in the view as many times as it is stored when visible, and
      not at all otherwise. */
  lemma {:induction false} VisibleCounts(messages: seq<Message>, user: string, m: Message)
    ensures multiset(Visible(messages, user))[m] == if IsVisibleTo(m, user) then multiset(messages)[m] else 0
    decreases |messages|
  {
    if messages != [] {
      var init, last := messages[..|messages| - 1], messages[|messages| - 1];
      VisibleCounts(init, user, m);
      assert messages == init + [last];
      assert multiset(messages) == multiset(init) + multiset{last};
    }
  }

  /** One transcript line, `f"{sender}: {message}\n"`. */
  function Line(m: Message): (r: string) {
    m.sender + ": " + m.body + "\n"
  }

  /** A line splits back into its parts: the sender, then ": ", then the
      body, then a newline. */
  lemma LineFields(m: Message)
    ensures |Line(m)| == |m.sender| + |m.body| + 3
    ensures Line(m)[..|m.sender|] == m.sender
    ensures Line(m)[|m.sender|..|m.sender| + 2] == ": "
    ensures Line(m)[|m.sender| + 2..|Line(m)| - 1] == m.body
    ensures Line(m)[|Line(m)| - 1] == '\n'
  {
  }

  /** The text the loop of `update_chat` leaves in the cleared display. */
  function Render(messages: seq<Message>): (r: string)
    decreases |messages|
  {
    if messages == [] then ""
    else Render(messages[..|messages| - 1]) + Line(messages[|messages| - 1])
  }

  /** The rendered text is empty exactly when there are no messages, and
      otherwise ends with the newline of its last line. */
  lemma RenderShape(messages: seq<Message>)
    ensures Render(messages) == "" <==> messages == []
    ensures messages != [] ==> Render(messages)[|Render(messages)| - 1] == '\n'
  {
  }

  /** What one `update_chat` tick shows the given user. */
  function Transcript(messages: seq<Message>, user: string): (r: string)
    ensures r == "" <==> forall i :: 0 <= i < |messages| ==> !IsVisibleTo(messages[i], user)
  {
    var rows := Visible(messages, user);
    RenderShape(rows);
    assert forall i :: 0 <= i < |messages| && IsVisibleTo(messages[i], user) ==> messages[i] in rows;
    assert rows != [] ==> rows[0] in messages && IsVisibleTo(rows[0], user);
    Render(rows)
  }

  /** Rendering is line by line: the transcript of a concatenation is the
      concatenation of the transcripts. */
  lemma {:induction false} RenderAppend(a: seq<Message>, b: seq<Message>)
    ensures Render(a + b) == Render(a) + Render(b)
    decreases |b|
  {
    if b == [] {
      assert a + b == a;
    } else {
      var init, last := b[..|b| - 1], b[|b| - 1];
      assert (a + b)[..|a + b| - 1] == a + init;
      assert (a + b)[|a + b| - 1] == last;
      RenderAppend(a, init);
    }
  }

  /** A message appended to the table joins a user's view at the end
      exactly when it is addressed to them or to the public marker. */
  lemma VisibleAppend(messages: seq<Message>, m: Message, user: string)
    ensures Visible(messages + [m], user) ==
      if IsVisibleTo(m, user) then Visible(messages, user) + [m] else Visible(messages, user)
  {
  }

  /** After a new message, the next tick shows the old transcript plus that
      message's line when it is visible to the user, and the old transcript
      unchanged otherwise (a message to another receiver never shows). */
  lemma TranscriptAfterInsert(messages: seq<Message>, m: Message, user: string)
    ensures Transcript(messages + [m], user) ==
      if IsVisibleTo(m, user) then Transcript(messages, user) + Line(m) else Transcript(messages, user)
  {
  }

  /** When every message is public, a user's view is the whole table. */
  lemma {:induction false} AllPublicVisible(messages: seq<Message>, user: string)
    requires forall i :: 0 <= i < |messages| ==> messages[i].receiver == Public
    ensures Visible(messages, user) == messages
    decreases |messages|
  {
    if messages != [] {
      var init, last := messages[..|messages| - 1], messages[|messages| - 1];
      AllPublicVisible(init, user);
      assert IsVisibleTo(last, user);
      assert Visible(messages, user) == Visible(init, user) + [last];
      assert messages == init + [last];
    }
  }

  /** When every message is public, every user sees the whole table in
      the same order, so any two users' transcripts are identical. */
  lemma AllPublicSeenByAll(messages: seq<Message>, a: string, b: string)
    requires forall i :: 0 <= i < |messages| ==> messages[i].receiver == Public
    ensures Visible(messages, a) == messages && Visible(messages, b) == messages
    ensures Transcript(messages, a) == Transcript(messages, b)
  {
    AllPublicVisible(messages, a);
    AllPublicVisible(messages, b);
  }

  /** `status == 'online'` on the fetched status of the current user, or
      the error of indexing a missing row. */
  function NotifyDecision(users: seq<User>, name: string): (r: Result<bool>)
    ensures r.Err? <==> r == Err(UserNotFound)
    ensures r.Err? <==> !HasUser(users, name)
    ensures r == Ok(true) ==> exists i :: 0 <= i < |users| && users[i].username == name && users[i].status == Some(Online)
  {
    match StatusOf(users, name)
    case Err(e) => Err(e)
    case Ok(s) => Ok(s == Some(Online))
  }

  /** Under the UNIQUE constraint on usernames, the alert fires exactly
      when the row of that user stores the status 'online' (no other
      spelling counts), and the lookup fails exactly when no row exists. */
  lemma NotifyExact(users: seq<User>, name: string)
    requires UniqueUsernames(users)
    ensures NotifyDecision(users, name).Err? <==> !HasUser(users, name)
    ensures NotifyDecision(users, name) == Ok(true) <==>
      exists i :: 0 <= i < |users| && users[i].username == name && users[i].status == Some(Online)
  {
  }
}
