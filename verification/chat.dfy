/** The chat transcript kept in the session state: the send step that
    appends one user turn and one assistant turn, the request handed to
    the completion service, and the sidebar preview of the last turns. */
module Chat {
  import opened Text

  datatype Role = System | User | Assistant

  /** One `{"role": ..., "content": ...}` entry of `chat_history`. */
  datatype Message = Message(role: Role, content: string)

  /** What the remote completion service produced for one request: the
      reply text, or the text of the exception it raised. */
  datatype Completion = Success(text: string) | Failure(error: string)

  const SystemPrompt := "You are Nova, a friendly AI assistant."
  /** The warning sign U+26A0 with variation selector U+FE0F, then " Error: ". */
  const ErrorPrefix := "\U{26A0}\U{FE0F} Error: "
  const PreviewCount := 10
  const PreviewWidth := 60

  /** The messages sent to the service: the fixed system prompt, then the
      whole history (which already ends with the new user turn). */
  function Request(history: seq<Message>): (r: seq<Message>)
    ensures |r| == |history| + 1
    ensures r[0] == Message(System, SystemPrompt) && r[1..] == history
  {
    [Message(System, SystemPrompt)] + history
  }

  /** The assistant's content: the completion text, or the error text
      behind a fixed prefix, so a failure never escapes the send step. */
  function ReplyText(outcome: Completion): (r: string)
    ensures outcome.Success? ==> r == outcome.text
    ensures outcome.Failure? ==>
      |r| == |ErrorPrefix| + |outcome.error| &&
      r[..|ErrorPrefix|] == ErrorPrefix && r[|ErrorPrefix|..] == outcome.error
  {
    match outcome
    case Success(text) => text
    case Failure(error) => ErrorPrefix + error
  }

  /** One press of Send. A blank prompt changes nothing; otherwise the old
      history is kept as a prefix and exactly two turns follow it: the
      prompt as typed, then the reply to the request that ends with it. */
  function SendStep(history: seq<Message>, prompt: string, complete: seq<Message> -> Completion): (r: seq<Message>)
    ensures IsBlank(prompt) ==> r == history
    ensures !IsBlank(prompt) ==>
      && |r| == |history| + 2
      && r[..|history|] == history
      && r[|history|] == Message(User, prompt)
      && r[|history| + 1] == Message(Assistant, ReplyText(complete(Request(r[..|history| + 1]))))
  {
    if IsBlank(prompt) then history
    else
      var asked := history + [Message(User, prompt)];
      asked + [Message(Assistant, ReplyText(complete(Request(asked))))]
  }

  /** The two turns of a non-blank send, as one sequence to append. */
  lemma SendStepAppends(history: seq<Message>, prompt: string, complete: seq<Message> -> Completion)
    requires !IsBlank(prompt)
    ensures var asked := history + [Message(User, prompt)];
      SendStep(history, prompt, complete)
        == asked + [Message(Assistant, ReplyText(complete(Request(asked))))]
  {
  }

  /** The assistant turn of a non-blank send always has content: even an
      exception with an empty message leaves the error prefix. */
  lemma ErrorsAreContained(history: seq<Message>, prompt: string, complete: seq<Message> -> Completion)
    requires !IsBlank(prompt)
    requires complete(Request(history + [Message(User, prompt)])).Failure?
    ensures var r := SendStep(history, prompt, complete);
      r[|history| + 1].role == Assistant && |r[|history| + 1].content| >= |ErrorPrefix| > 0
  {
    var r := SendStep(history, prompt, complete);
    assert r[..|history| + 1] == history + [Message(User, prompt)];
  }

  /** The history alternates user and assistant turns, starting with a
      user turn, and has no unanswered prompt. */
  ghost predicate WellPaired(h: seq<Message>) {
    && |h| % 2 == 0
    && forall i :: 0 <= i < |h| ==> h[i].role == (if i % 2 == 0 then User else Assistant)
  }

  lemma SendKeepsPaired(history: seq<Message>, prompt: string, complete: seq<Message> -> Completion)
    requires WellPaired(history)
    ensures WellPaired(SendStep(history, prompt, complete))
  {
    if !IsBlank(prompt) {
      SendStepAppends(history, prompt, complete);
      var r := SendStep(history, prompt, complete);
      forall i | 0 <= i < |r|
        ensures r[i].role == (if i % 2 == 0 then User else Assistant)
      {
        if i < |history| {
          assert r[i] == history[i];
        }
      }
    }
  }

  /** Several presses of Send in a row, one per prompt. */
  function SendAll(history: seq<Message>, prompts: seq<string>, complete: seq<Message> -> Completion): seq<Message>
    decreases |prompts|
  {
    if prompts == [] then history
    else SendAll(SendStep(history, prompts[0], complete), prompts[1..], complete)
  }

  /** The prompts that are not blank, in order. */
  function NonBlank(prompts: seq<string>): (r: seq<string>)
    ensures |r| <= |prompts|
    ensures forall k :: 0 <= k < |r| ==> !IsBlank(r[k])
  {
    if prompts == [] then []
    else (if IsBlank(prompts[0]) then [] else [prompts[0]]) + NonBlank(prompts[1..])
  }

  /** The contents of the user turns of a history, in order. */
  function UserPrompts(h: seq<Message>): seq<string> {
    if h == [] then []
    else (if h[0].role == User then [h[0].content] else []) + UserPrompts(h[1..])
  }

  lemma {:induction false} UserPromptsAppend(a: seq<Message>, b: seq<Message>)
    ensures UserPrompts(a + b) == UserPrompts(a) + UserPrompts(b)
  {
    if a != [] {
      assert (a + b)[1..] == a[1..] + b;
      UserPromptsAppend(a[1..], b);
    } else {
      assert a + b == b;
    }
  }

  /** One send adds the prompt to the user turns exactly when it is not blank. */
  lemma SendStepUserPrompts(history: seq<Message>, prompt: string, complete: seq<Message> -> Completion)
    ensures UserPrompts(SendStep(history, prompt, complete))
         == UserPrompts(history) + (if IsBlank(prompt) then [] else [prompt])
  {
    if !IsBlank(prompt) {
      var next := SendStep(history, prompt, complete);
      var reply := Message(Assistant, next[|history| + 1].content);
      var pair := [Message(User, prompt), reply];
      assert next == history + pair;
      UserPromptsAppend(history, pair);
      assert UserPrompts(pair) == [prompt] by {
        assert pair[1..] == [reply] && [reply][1..] == [];
        assert UserPrompts([reply]) == [];
        assert UserPrompts(pair) == [prompt] + UserPrompts([reply]);
      }
    }
  }

  /** Successive sends only append: the old transcript stays a prefix and
      every non-blank prompt adds one question and one reply. */
  lemma {:induction false} SendAllOnlyAppends(history: seq<Message>, prompts: seq<string>, complete: seq<Message> -> Completion)
    ensures var r := SendAll(history, prompts, complete);
      |r| == |history| + 2 * |NonBlank(prompts)| && r[..|history|] == history
    decreases |prompts|
  {
    if prompts != [] {
      var first, rest := prompts[0], prompts[1..];
      var added := if IsBlank(first) then [] else [first];
      assert NonBlank(prompts) == added + NonBlank(rest);
      var next := SendStep(history, first, complete);
      assert |next| == |history| + 2 * |added| && next[..|history|] == history;
      SendAllOnlyAppends(next, rest, complete);
      var r := SendAll(next, rest, complete);
      assert r[..|history|] == r[..|next|][..|history|];
    }
  }

  /** The transcript is never reordered: the user turns that successive
      sends add are the non-blank prompts in submission order. */
  lemma {:induction false} SendAllAppendsInOrder(history: seq<Message>, prompts: seq<string>, complete: seq<Message> -> Completion)
    ensures UserPrompts(SendAll(history, prompts, complete)) == UserPrompts(history) + NonBlank(prompts)
    decreases |prompts|
  {
    if prompts != [] {
      var next := SendStep(history, prompts[0], complete);
      SendAllAppendsInOrder(next, prompts[1..], complete);
      SendStepUserPrompts(history, prompts[0], complete);
    }
  }

  /** One line of the sidebar preview: who spoke, and what they said. */
  datatype PreviewLine = PreviewLine(who: string, text: string)

  /** A turn as the sidebar shows it: "You" for a user turn, "Nova" for any
      other, and at most the first 60 characters of the content. */
  function PreviewOf(m: Message): (line: PreviewLine)
    ensures line.who == "You" <==> m.role == User
    ensures line.who == "Nova" <==> m.role != User
    ensures |line.text| == Min(PreviewWidth, |m.content|)
    ensures line.text == m.content[..|line.text|]
  {
    PreviewLine(if m.role == User then "You" else "Nova", Head(m.content, PreviewWidth))
  }

  /** The sidebar preview: the last min(10, |history|) turns, in order. */
  function Preview(history: seq<Message>): (lines: seq<PreviewLine>)
    ensures |lines| == Min(PreviewCount, |history|)
    ensures forall i :: 0 <= i < |lines| ==> lines[i] == PreviewOf(history[|history| - |lines| + i])
  {
    var recent := Tail(history, PreviewCount);
    seq(|recent|, i requires 0 <= i < |recent| => PreviewOf(recent[i]))
  }

  /** The preview of the transcript that a non-blank send leaves ends with
      the prompt and the reply, each cut to the preview width. */
  lemma PreviewAfterSend(history: seq<Message>, prompt: string, complete: seq<Message> -> Completion)
    requires !IsBlank(prompt)
    ensures var lines := Preview(SendStep(history, prompt, complete));
      var reply := ReplyText(complete(Request(history + [Message(User, prompt)])));
      && |lines| >= 2
      && lines[|lines| - 2] == PreviewLine("You", Head(prompt, PreviewWidth))
      && lines[|lines| - 1] == PreviewLine("Nova", Head(reply, PreviewWidth))
  {
    var r := SendStep(history, prompt, complete);
    assert r[..|history| + 1] == history + [Message(User, prompt)];
  }
}
