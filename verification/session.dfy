/** The per-browser session state of gpt.py (`logged_in`, `username`,
    `chat_history`) and the handlers that overwrite it: the login form,
    the signup form, the Logout button and the Send button. The users file
    is shared by all sessions and is held by reference. */
module Session {
  import opened Text
  import opened Credentials
  import opened Chat

  const MismatchMsg := "Passwords do not match."

  class NovaApp {
    const store: UserStore
    var loggedIn: bool
    var username: string
    var chatHistory: seq<Message>

    /** Logged out means no name and no transcript; a transcript is always
        whole question-and-answer pairs. */
    ghost predicate Valid()
      reads this
    {
      && (!loggedIn ==> username == "" && chatHistory == [])
      && WellPaired(chatHistory)
    }

    /** The `setdefault` calls that start a new session. */
    constructor (store: UserStore)
      ensures Valid()
      ensures this.store == store
      ensures !loggedIn && username == "" && chatHistory == []
    {
      this.store := store;
      loggedIn := false;
      username := "";
      chatHistory := [];
    }

    /** The "Log in" form, shown only while logged out. */
    method SubmitLogin(u: string, p: string) returns (ok: bool, msg: string)
      requires Valid() && !loggedIn
      modifies this
      ensures Valid()
      ensures Reply(ok, msg) == Login(store.users, u, p)
      ensures loggedIn == ok
      ensures username == (if ok then u else old(username))
      ensures chatHistory == old(chatHistory)
    {
      var r := Login(store.users, u, p);
      ok, msg := r.ok, r.msg;
      if ok {
        loggedIn := true;
        username := u;
      }
    }

    /** The "Create account" form, shown only while logged out. A mismatched
        confirmation is reported without touching the users file. */
    method SubmitSignup(u2: string, p2: string, p2c: string) returns (ok: bool, msg: string)
      requires Valid() && !loggedIn
      modifies this, store
      ensures Valid()
      ensures p2 != p2c ==> !ok && msg == MismatchMsg && store.users == old(store.users)
      ensures p2 == p2c ==>
        && Reply(ok, msg) == SignupStep(old(store.users), u2, p2).reply
        && store.users == SignupStep(old(store.users), u2, p2).users
      ensures loggedIn == ok
      ensures username == (if ok then u2 else old(username))
      ensures chatHistory == old(chatHistory)
    {
      if p2 != p2c {
        return false, MismatchMsg;
      }
      ok, msg := store.Signup(u2, p2);
      if ok {
        loggedIn := true;
        username := u2;
      }
    }

    /** The sidebar's Logout button, shown only while logged in. */
    method Logout()
      requires Valid() && loggedIn
      modifies this
      ensures Valid()
      ensures !loggedIn && username == "" && chatHistory == []
    {
      loggedIn := false;
      username := "";
      chatHistory := [];
    }

    /** The Send button, shown only while logged in. The user turn is
        appended before the service is asked, so the request ends with it. */
    method Send(prompt: string, complete: seq<Message> -> Completion)
      requires Valid() && loggedIn
      modifies this
      ensures Valid()
      ensures loggedIn && username == old(username)
      ensures chatHistory == SendStep(old(chatHistory), prompt, complete)
    {
      SendKeepsPaired(chatHistory, prompt, complete);
      if !IsBlank(prompt) {
        chatHistory := chatHistory + [Message(User, prompt)];
        var reply := ReplyText(complete(Request(chatHistory)));
        chatHistory := chatHistory + [Message(Assistant, reply)];
      }
    }
  }

  /** A new user signs up, after one mistyped confirmation. */
  method SignupNewUser() returns (app: NovaApp)
    ensures app.Valid() && app.loggedIn && app.username == "ann"
    ensures app.store.users == map["ann" := "pw"]
  {
    var store := new UserStore(map[]);
    app := new NovaApp(store);

    var ok, msg := app.SubmitSignup("ann", "pw", "px");
    assert !ok && msg == MismatchMsg && store.users == map[];

    assert !IsBlank("ann") by { assert !IsSpace("ann"[0]); }
    ok, msg := app.SubmitSignup("ann", "pw", "pw");
  }

  /** A logged-in user's first prompt, answered by a stubbed completion
      service, becomes the first question-and-answer pair. */
  method FirstExchange(app: NovaApp, prompt: string, answer: string)
    requires app.Valid() && app.loggedIn && app.chatHistory == []
    requires !IsBlank(prompt)
    modifies app
  {
    var stub := (_: seq<Message>) => Success(answer);
    SendStepAppends([], prompt, stub);
    app.Send(prompt, stub);
    assert app.chatHistory == [Message(User, prompt), Message(Assistant, answer)];
  }

  /** A blank prompt leaves the transcript as it was, whatever the service
      would have said. */
  method BlankPrompt(app: NovaApp, prompt: string, error: string)
    requires app.Valid() && app.loggedIn && IsBlank(prompt)
    modifies app
  {
    var before := app.chatHistory;
    app.Send(prompt, _ => Failure(error));
    assert app.chatHistory == before;
  }

  /** After a logout the user logs back in to an empty transcript; a wrong
      password is refused. */
  method LogoutAndLogin(app: NovaApp)
    requires app.Valid() && app.loggedIn
    requires app.store.users == map["ann" := "pw"]
    modifies app
  {
    app.Logout();
    var ok, msg := app.SubmitLogin("ann", "px");
    assert !ok && msg == InvalidMsg && !app.loggedIn;
    ok, msg := app.SubmitLogin("ann", "pw");
    assert ok && app.username == "ann" && app.chatHistory == [];
  }
}
