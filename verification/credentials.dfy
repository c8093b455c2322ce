/** The credential store of gpt.py: `users.json` read as a plaintext map
    from username to password, `signup` (which adds one entry in place)
    and `login` (a read-only lookup). The file itself is abstracted as the
    map it currently holds. */
module Credentials {
  import opened Text

  /** The `(ok, message)` pair that `signup` and `login` return. */
  datatype Reply = Reply(ok: bool, msg: string)

  const RequiredMsg := "Username and password required."
  const ExistsMsg := "Username already exists."
  const SignupOkMsg := "Signup successful!"
  const LoginOkMsg := "Login successful!"
  const InvalidMsg := "Invalid username or password."

  /** Username, exactly as typed, to plaintext password. */
  type Users = map<string, string>

  /** What `signup` answers, and the map it leaves in the file. */
  datatype SignupResult = SignupResult(reply: Reply, users: Users)

  /** `login`: succeeds exactly for a known username with the identical
      password, and never changes the store. */
  function Login(users: Users, username: string, password: string): (r: Reply)
    ensures r.ok <==> username in users && users[username] == password
    ensures r.msg == (if r.ok then LoginOkMsg else InvalidMsg)
  {
    if username in users && users[username] == password then Reply(true, LoginOkMsg)
    else Reply(false, InvalidMsg)
  }

  /** `signup` as a function of the map it loads. The blank check comes
      before the duplicate check; on success exactly one entry, keyed by the
      unstripped username, is added and nothing else changes. */
  function SignupStep(users: Users, username: string, password: string): (r: SignupResult)
    ensures IsBlank(username) || password == [] ==>
      r == SignupResult(Reply(false, RequiredMsg), users)
    ensures !IsBlank(username) && password != [] && username in users ==>
      r == SignupResult(Reply(false, ExistsMsg), users)
    ensures r.reply.ok <==> !IsBlank(username) && password != [] && username !in users
    ensures r.reply.ok ==>
      && r.reply.msg == SignupOkMsg
      && r.users.Keys == users.Keys + {username}
      && r.users[username] == password
      && forall k :: k in users ==> r.users[k] == users[k]
  {
    if IsBlank(username) || password == [] then SignupResult(Reply(false, RequiredMsg), users)
    else if username in users then SignupResult(Reply(false, ExistsMsg), users)
    else SignupResult(Reply(true, SignupOkMsg), users[username := password])
  }

  /** A successful signup lets the new user log in with that password and
      with no other. */
  lemma SignupThenLogin(users: Users, username: string, password: string, other: string)
    requires SignupStep(users, username, password).reply.ok
    ensures Login(SignupStep(users, username, password).users, username, password).ok
    ensures other != password ==>
      !Login(SignupStep(users, username, password).users, username, other).ok
  {
  }

  /** Usernames are unique: once a signup succeeded, a second signup with
      the same username fails and keeps the first password. */
  lemma SignupOnlyOnce(users: Users, username: string, password: string, again: string)
    requires SignupStep(users, username, password).reply.ok
    ensures var after := SignupStep(users, username, password).users;
      && !IsBlank(username)
      && (again != [] ==> SignupStep(after, username, again) == SignupResult(Reply(false, ExistsMsg), after))
      && SignupStep(after, username, again).users[username] == password
  {
  }

  /** A signup changes no other user's login outcome, whatever the outcome
      of the signup. */
  lemma SignupKeepsOtherLogins(users: Users, username: string, password: string, who: string, guess: string)
    requires who != username
    ensures Login(SignupStep(users, username, password).users, who, guess) == Login(users, who, guess)
  {
  }

  /** The users file as one object: `signup` updates its map in place. */
  class UserStore {
    var users: Users

    /** Opens the store on what `load_users` returned. */
    constructor (saved: Users)
      ensures users == saved
    {
      users := saved;
    }

    method Signup(username: string, password: string) returns (ok: bool, msg: string)
      modifies this
      ensures Reply(ok, msg) == SignupStep(old(users), username, password).reply
      ensures users == SignupStep(old(users), username, password).users
    {
      if IsBlank(username) || password == [] {
        return false, RequiredMsg;
      }
      if username in users {
        return false, ExistsMsg;
      }
      users := users[username := password];
      return true, SignupOkMsg;
    }
  }
}
