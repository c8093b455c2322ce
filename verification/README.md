# Nova AI chat: credential store, session state and chat transcript

A Dafny model of the logic inside `gpt.py`, a single-page Streamlit chat
app ("Nova"). Once styling, widgets and remote calls are set aside, the
app does three things, and the model covers each:

- **Credential store** (`credentials.dfy`, module `Credentials`):
  `users.json` is a plaintext map from username to password. `signup`
  refuses a blank username or an empty password, then a taken username,
  and otherwise adds exactly one entry keyed by the username as typed
  (the strip is only used for the blank test). `login` is a read-only
  lookup followed by exact string comparison. The pure functions `Login`
  and `SignupStep` are the specification; the class `UserStore` holds the
  map and its `Signup` method updates it in place.
- **Session state** (`session.dfy`, module `Session`): the class
  `NovaApp` holds the three session fields `logged_in`, `username` and
  `chat_history` plus a reference to the shared `UserStore`. Its methods
  are the login form, the signup form (which checks the password
  confirmation before touching the store), the Logout button and the
  Send button. The object invariant `Valid()` says that a logged-out
  session has no name and no transcript and that the transcript is whole
  user/assistant pairs. Every method keeps it; the pairing holds because
  the model's Send is one atomic step (see "Left out").
- **Chat transcript** (`chat.dfy`, module `Chat`): one Send appends the
  prompt as a user turn and then one assistant turn. The service receives
  the system prompt followed by the whole transcript. The assistant turn
  carries the completion text or `⚠️ Error: ` followed by the error text,
  so a failure never escapes. The sidebar preview shows the last ten
  turns, labelled "You" or "Nova", each cut to 60 characters.
- **Text** (`text.dfy`, module `Text`): Python's `str.isspace`,
  `str.strip()` and the slices `s[:n]` and `s[-n:]`, over strings of
  code points as in Python.

The completion service is a parameter `complete: seq<Message> ->
Completion` of the send step, where `Completion = Success(text) |
Failure(error)`. It is opaque: nothing is assumed about what it answers.
Each form's message (shown with `st.info`/`st.error`/`st.success`) is
returned from the method rather than displayed. The login and signup
forms exist only in the logged-out branch of the page (gpt.py:155), and
the Logout and Send buttons only in the logged-in one (gpt.py:139, 191),
so the methods require that state of their callers.

`gpt.py` stores passwords in plaintext, has no session tokens, and keeps
a single transcript in the session state. The assistant turn for a
failed call holds the whole exception text after the prefix.

## Model

| member | source | states |
|---|---|---|
| Text.TrimLeft | gpt.py:118 | the result is the suffix of the input that starts at its first non-space; everything dropped is a space |
| Text.TrimRight | gpt.py:118 | the result is the prefix of the input that ends at its last non-space; everything dropped is a space |
| Text.IsSpace | gpt.py:118 | the code points Python treats as whitespace (`str.isspace`): tab to carriage return, U+001C to U+001F, space, U+0085, U+00A0, U+1680, U+2000 to U+200A, U+2028, U+2029, U+202F, U+205F and U+3000 |
| Text.Strip | gpt.py:196 | `strip()` is empty exactly when every character is a space (so `not s.strip()` means all-blank), otherwise it neither starts nor ends with a space |
| Text.StripIsTrimmedSlice | gpt.py:118 | `strip()` is the slice of the string that starts after its leading spaces, with only spaces before and after it |
| Text.Head | gpt.py:150 | `s[:n]` has min(n, length) elements and is a prefix of `s` |
| Text.Tail | gpt.py:148 | `s[-n:]` (n positive) has min(n, length) elements and is a suffix of `s` |
| Credentials.Login | gpt.py:126-130 | login succeeds if and only if the username is a key and its password is identical; the message is "Login successful!" or "Invalid username or password."; the map is an input only, so it is never changed |
| Credentials.SignupStep | gpt.py:116-124 | blank username or empty password gives "Username and password required." with the map unchanged, checked before duplicates; an existing key gives "Username already exists." with the map unchanged; success happens exactly otherwise and adds only the unstripped username with this password, keeping every other entry |
| Credentials.SignupThenLogin | gpt.py:116-130 | after a successful signup, login with the same password succeeds and login with any other password fails |
| Credentials.SignupOnlyOnce | gpt.py:120-122 | after a successful signup, a second signup of the same username fails with "Username already exists." (for any non-empty password) and the first password stays |
| Credentials.SignupKeepsOtherLogins | gpt.py:120-124 | a signup, successful or not, does not change the login outcome of any other username |
| Credentials.UserStore.constructor | gpt.py:103-110 | the store starts from the map that loading the users file produced |
| Credentials.UserStore.Signup | gpt.py:116-124 | the in-place signup returns the reply of `SignupStep` and leaves exactly the map `SignupStep` describes |
| Chat.Request | gpt.py:206-210 | the service receives the system prompt "You are Nova, a friendly AI assistant." followed by the transcript unchanged |
| Chat.ReplyText | gpt.py:211-213 | on success the reply is the completion text; on failure it is the error prefix followed by exactly the error text |
| Chat.SendStep | gpt.py:196-217 | a blank prompt leaves the transcript unchanged; otherwise it grows by exactly two, the old transcript stays a prefix, the first new turn is the prompt as typed and the second the reply to the request that ends with that prompt |
| Chat.SendStepAppends | gpt.py:198-217 | a non-blank send appends the user turn and then the assistant turn to the old transcript |
| Chat.ErrorsAreContained | gpt.py:212-217 | when the service fails, the send still ends with an assistant turn, and its content is never empty |
| Chat.SendKeepsPaired | gpt.py:196-217 | a transcript of alternating user/assistant turns of even length stays so after a send |
| Chat.SendStepUserPrompts | gpt.py:196-198 | a send adds its prompt to the user turns exactly when the prompt is not blank |
| Chat.SendAllOnlyAppends | gpt.py:196-217 | over any number of sends the old transcript stays a prefix and two turns are added per non-blank prompt |
| Chat.SendAllAppendsInOrder | gpt.py:196-198 | over any number of sends the user turns added are the non-blank prompts in submission order |
| Chat.PreviewOf | gpt.py:149-150 | a previewed turn is labelled "You" if and only if it is a user turn, "Nova" otherwise, and shows the first min(60, length) characters of its content |
| Chat.Preview | gpt.py:148 | the preview has min(10, length) lines, and line i shows the i-th of the last min(10, length) turns, in order |
| Chat.PreviewAfterSend | gpt.py:148-150 | the preview of the transcript a non-blank send leaves ends with "You" and the prompt, then "Nova" and the reply, each cut to 60 characters |
| Session.NovaApp.constructor | gpt.py:133-135 | a new session is logged out with an empty username and an empty transcript |
| Session.NovaApp.SubmitLogin | gpt.py:159-170 | the form answers as `Login` does on the current users map; on success the session is logged in under the name as typed, on failure nothing changes; the transcript is untouched |
| Session.NovaApp.SubmitSignup | gpt.py:172-189 | a mismatched confirmation answers "Passwords do not match." and changes neither the store nor the session; otherwise the store changes as `SignupStep` says and the session logs in exactly when the signup succeeded |
| Session.NovaApp.Logout | gpt.py:141-145 | logout sets logged out, empty username and empty transcript |
| Session.NovaApp.Send | gpt.py:193-217 | the transcript becomes `SendStep` of the old one; login state and username do not change |
| Session.SignupNewUser | gpt.py:172-189 | starting from an empty users file, a mismatched confirmation followed by a matching one leaves the session logged in and the file with exactly that one user |

## Left out

- Reading and writing `users.json` (`load_users`, `save_users`, JSON encoding): the store is the map the file holds. A missing file or malformed JSON reads as the empty map in the source; the model starts a store from any given map.
- The remote chat completion call: its outcome is the opaque `complete` parameter. The model name "gpt-3.5-turbo" sent with the request and the response's `choices[0].message.content` path are not modelled; a response of the wrong shape is one more `Failure`.
- Text to speech (`openai.Audio.create`, the mp3 file and its warning): a best-effort side effect that never changes the session state.
- API key lookup from Streamlit secrets or the environment: configuration I/O.
- Styling, tabs, forms, the loading animation, `st.rerun`, the rendering of the transcript and the markdown of the preview lines (`**You:** …`): presentation only. Only the preview's content (label and cut text) is modelled.
- A run stopped between gpt.py:198 and gpt.py:217: Streamlit can stop a script run at any of its calls (such as `loader.empty()` at gpt.py:215) when the user interacts while the completion is in flight. The user turn then stays without a reply, and the next request sends it again. The model treats a send as atomic, so it does not capture this, and the pairing in `Valid()` holds only for that atomic send.
- When the sidebar shows new turns: the sidebar preview is drawn at gpt.py:147-150, before the send at gpt.py:196-217 in the same run, and no rerun follows a send. The turns a send adds appear in the preview only from the next run. The model states what the preview of a transcript is, not when it is drawn.
- Concurrency: two sessions signing up at once can overwrite each other's `users.json`; the model runs one call at a time on one shared map.
