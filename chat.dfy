/** The chat page: a session's conversation history, the request payload
    sent to the hosted completion endpoint, the history filter used for
    display, and the word-by-word "typing" text. The endpoint call itself
    is an input: its answer is `Some(reply)` or `None`. */
module Chat {
  import opened Wrappers
  import PyText

  const SystemRole: string := "system"
  const UserRole: string := "user"
  const AssistantRole: string := "assistant"

  /** Default `max_tokens` of a completion request. */
  const DefaultMaxTokens: int := 1000

  /** One `{"role": ..., "content": ...}` entry of the history. */
  datatype Message = Message(role: string, content: string)

  /** The JSON body `{model, messages, max_tokens}` of a completion request. */
  datatype Payload = Payload(model: string, messages: seq<Message>, maxTokens: int)

  function SystemMessage(systemPrompt: string): Message { Message(SystemRole, systemPrompt) }
  function UserMessage(prompt: string): Message { Message(UserRole, prompt) }
  function AssistantMessage(reply: string): Message { Message(AssistantRole, reply) }

  /** Python truthiness of the endpoint's answer: neither `None` nor "". */
  predicate Truthy(answer: Option<string>)
    ensures Truthy(answer) <==> answer != None && answer != Some("")
  {
    answer.Some? && answer.value != ""
  }

  /** The conversation invariant: a system message first, and after it
      only user and assistant messages, each assistant reply directly after
      a user message. */
  predicate WellFormed(history: seq<Message>) {
    |history| >= 1 && history[0].role == SystemRole &&
    (forall i :: 1 <= i < |history| ==>
       history[i].role == UserRole || history[i].role == AssistantRole) &&
    (forall i :: 1 <= i < |history| && history[i].role == AssistantRole ==>
       history[i - 1].role == UserRole)
  }

  /** The request body built by `query_openrouter`: the history followed by
      one more user message with the prompt. */
  function BuildPayload(history: seq<Message>, prompt: string, model: string,
                        maxTokens: int := DefaultMaxTokens): (p: Payload)
    ensures p.model == model && p.maxTokens == maxTokens
    ensures |p.messages| == |history| + 1
    ensures p.messages[..|history|] == history
    ensures p.messages[|history|] == UserMessage(prompt)
  {
    Payload(model, history + [UserMessage(prompt)], maxTokens)
  }

  /** Called with the history as it stands when the request is made (it
      already ends with the user's prompt), the payload carries that prompt
      twice in its last two entries. */
  lemma PayloadRepeatsPrompt(history: seq<Message>, prompt: string, model: string)
    requires |history| > 0 && history[|history| - 1] == UserMessage(prompt)
    ensures var m := BuildPayload(history, prompt, model).messages;
      |m| >= 2 && m[|m| - 2] == m[|m| - 1] == UserMessage(prompt)
    ensures BuildPayload(history, prompt, model).maxTokens == 1000
  {
  }

  /** What can happen to a session: a chat turn with the user's input and
      the endpoint's answer, or the "Clear Chat History" button, which
      installs the system prompt of the current page run. */
  datatype Event = Turn(prompt: string, answer: Option<string>) | Clear(systemPrompt: string)

  /** The history after one event. An empty input does nothing; otherwise
      the user message is always appended and the reply only if truthy. */
  function Step(history: seq<Message>, e: Event): (next: seq<Message>)
    ensures e.Turn? ==> |history| <= |next| <= |history| + 2 && next[..|history|] == history
    ensures e.Turn? && e.prompt != "" ==> |next| > |history| && next[|history|] == UserMessage(e.prompt)
    ensures e.Clear? ==> |next| == 1 && next[0].role == SystemRole && next[0].content == e.systemPrompt
  {
    match e
    case Clear(systemPrompt) => [SystemMessage(systemPrompt)]
    case Turn(prompt, answer) =>
      if prompt == "" then history
      else if Truthy(answer) then history + [UserMessage(prompt), AssistantMessage(answer.value)]
      else history + [UserMessage(prompt)]
  }

  /** The history after a sequence of events, oldest first. Turns alone
      never remove or change a message: the old history stays a prefix. */
  function Run(history: seq<Message>, events: seq<Event>): (final: seq<Message>)
    ensures (forall k :: 0 <= k < |events| ==> events[k].Turn?) ==>
      |history| <= |final| && final[..|history|] == history
    ensures |history| > 0 ==> |final| > 0
    decreases |events|
  {
    if events == [] then history
    else
      var next := Step(history, events[0]);
      var final := Run(next, events[1..]);
      assert (forall k :: 0 <= k < |events| ==> events[k].Turn?) ==>
        (forall k :: 0 <= k < |events[1..]| ==> events[1..][k].Turn?) by {
        forall k | 0 <= k < |events[1..]| ensures events[1..][k] == events[k + 1] { }
      }
      final
  }

  lemma StepKeepsWellFormed(history: seq<Message>, e: Event)
    requires WellFormed(history)
    ensures WellFormed(Step(history, e))
  {
  }

  /** Whatever turns and clears happen, the history keeps its single system
      message in front. */
  lemma {:induction false} RunKeepsWellFormed(history: seq<Message>, events: seq<Event>)
    requires WellFormed(history)
    decreases |events|
    ensures var h := Run(history, events);
      WellFormed(h) && h[0].role == SystemRole &&
      forall i :: 1 <= i < |h| ==> h[i].role != SystemRole
  {
    if events != [] {
      StepKeepsWellFormed(history, events[0]);
      RunKeepsWellFormed(Step(history, events[0]), events[1..]);
    }
  }

  /** The system prompt in force after `events`: that of the last clear, or
      `current` when there is none. */
  function LastSystemPrompt(current: string, events: seq<Event>): string
    decreases |events|
  {
    if events == [] then current
    else LastSystemPrompt(if events[0].Clear? then events[0].systemPrompt else current, events[1..])
  }

  /** Turns never touch the first message; a clear replaces it with the
      prompt it carries. */
  lemma {:induction false} RunSystemMessage(history: seq<Message>, events: seq<Event>)
    requires WellFormed(history)
    decreases |events|
    ensures Run(history, events)[0] == SystemMessage(LastSystemPrompt(history[0].content, events))
  {
    RunKeepsWellFormed(history, events);
    if events != [] {
      var next := Step(history, events[0]);
      StepKeepsWellFormed(history, events[0]);
      RunSystemMessage(next, events[1..]);
    }
  }

  /** Clearing twice leaves the same history as clearing once. */
  lemma ClearIdempotent(history: seq<Message>, systemPrompt: string)
    ensures Step(Step(history, Clear(systemPrompt)), Clear(systemPrompt))
         == Step(history, Clear(systemPrompt))
         == [SystemMessage(systemPrompt)]
  {
  }

  /** The messages shown on the page: the history without system-role
      entries, in history order. */
  function Displayed(history: seq<Message>): (shown: seq<Message>)
    ensures forall i :: 0 <= i < |shown| ==> shown[i].role != SystemRole
  {
    if history == [] then []
    else (if history[0].role == SystemRole then [] else [history[0]]) + Displayed(history[1..])
  }

  /** Filtering commutes with concatenation, so the display keeps order. */
  lemma {:induction false} DisplayedAppend(a: seq<Message>, b: seq<Message>)
    ensures Displayed(a + b) == Displayed(a) + Displayed(b)
  {
    if a == [] {
      assert a + b == b;
    } else {
      var rest := a[1..];
      assert a == [a[0]] + rest;
      assert a + b == [a[0]] + (rest + b);
      DisplayedCons(a[0], rest + b);
      DisplayedCons(a[0], rest);
      DisplayedAppend(rest, b);
      var head := if a[0].role == SystemRole then [] else [a[0]];
      var x, y := Displayed(rest), Displayed(b);
      assert head + (x + y) == (head + x) + y;
    }
  }

  lemma DisplayedCons(m: Message, rest: seq<Message>)
    ensures Displayed([m] + rest) == (if m.role == SystemRole then [] else [m]) + Displayed(rest)
  {
    assert ([m] + rest)[1..] == rest;
  }

  /** The page shows only messages of the history, and every one of them
      that is not the system message. */
  lemma {:induction false} DisplayedMembers(history: seq<Message>)
    ensures forall m :: m in Displayed(history) ==> m in history
    ensures forall m :: m in history && m.role != SystemRole ==> m in Displayed(history)
  {
    if history != [] {
      var rest := history[1..];
      assert history == [history[0]] + rest;
      DisplayedCons(history[0], rest);
      DisplayedMembers(rest);
    }
  }

  lemma {:induction false} DisplayedNoSystem(history: seq<Message>)
    requires forall i :: 0 <= i < |history| ==> history[i].role != SystemRole
    ensures Displayed(history) == history
  {
    if history != [] {
      DisplayedNoSystem(history[1..]);
    }
  }

  /** On a well-formed history the page shows everything but the first
      message. */
  lemma DisplayedWellFormed(history: seq<Message>)
    requires WellFormed(history)
    ensures Displayed(history) == history[1..]
  {
    DisplayedNoSystem(history[1..]);
  }

  /** Each word followed by one space, in order. */
  function Typed(words: seq<string>): (text: string)
    ensures |text| == |PyText.Concat(words)| + |words|
  {
    if words == [] then "" else words[0] + " " + Typed(words[1..])
  }

  lemma {:induction false} TypedAppend(words: seq<string>, w: string)
    ensures Typed(words + [w]) == Typed(words) + w + " "
  {
    if words == [] {
      assert [w][1..] == [];
    } else {
      assert (words + [w])[1..] == words[1..] + [w];
      TypedAppend(words[1..], w);
    }
  }

  /** The final text of the typing effect for a reply. Splitting it again
      yields the reply's words: the typing effect changes only the
      whitespace between words. */
  function TypedText(reply: string): (text: string)
    ensures PyText.Split(text) == PyText.Split(reply)
  {
    SplitTyped(PyText.Split(reply));
    Typed(PyText.Split(reply))
  }

  /** The typing loop: for each whitespace-separated word of a truthy reply,
      add the word and one space. A falsy answer shows no text. */
  method TypeOut(answer: Option<string>) returns (full: string)
    ensures full == if Truthy(answer) then TypedText(answer.value) else ""
  {
    full := "";
    if Truthy(answer) {
      var words := PyText.Split(answer.value);
      for i := 0 to |words|
        invariant full == Typed(words[..i])
      {
        TypedAppend(words[..i], words[i]);
        assert words[..i + 1] == words[..i] + [words[i]];
        full := full + words[i] + " ";
      }
      assert words[..|words|] == words;
    }
  }

  lemma {:induction false} SplitTyped(words: seq<string>)
    requires forall k :: 0 <= k < |words| ==> PyText.IsWord(words[k])
    ensures PyText.Split(Typed(words)) == words
  {
    if words != [] {
      var rest := Typed(words[1..]);
      PyText.SplitAtSpace(words[0], ' ', rest);
      PyText.SplitWord(words[0]);
      SplitTyped(words[1..]);
      assert Typed(words) == words[0] + [' '] + rest;
    }
  }

  /** The typed text is empty exactly when the reply has no words. */
  lemma TypedTextEmpty(reply: string)
    ensures TypedText(reply) == "" <==> PyText.AllSpace(reply)
  {
  }

  /** A reply with words gives a text ending in exactly one space, right
      after the last character of the last word. */
  lemma TypedTextEndsWithOneSpace(reply: string)
    requires !PyText.AllSpace(reply)
    ensures var t := TypedText(reply);
      |t| >= 2 && t[|t| - 1] == ' ' && !PyText.IsSpace(t[|t| - 2])
  {
    var words := PyText.Split(reply);
    var n := |words|;
    assert words == words[..n - 1] + [words[n - 1]];
    TypedAppend(words[..n - 1], words[n - 1]);
    var w := words[n - 1];
    assert PyText.IsWord(w);
    assert TypedText(reply)[|TypedText(reply)| - 2] == w[|w| - 1];
  }

  /** One browser session's `st.session_state`. */
  class Session {
    /** MODEL_NAME from the configuration. */
    const model: string
    /** Whether the session holds a "messages" entry. */
    var initialized: bool
    /** `st.session_state.messages`. */
    var messages: seq<Message>

    ghost predicate Valid()
      reads this
    {
      initialized && WellFormed(messages)
    }

    /** A new session, before the page script has run. */
    constructor (model: string)
      ensures this.model == model
      ensures !initialized && messages == []
    {
      this.model := model;
      initialized := false;
      messages := [];
    }

    /** Seeds the history with the system message built from the system
        prompt of this page run, unless the session already has a history
        (which then keeps the system message it was seeded with). */
    method Init(systemPrompt: string)
      modifies this
      ensures initialized
      ensures old(initialized) ==> messages == old(messages)
      ensures !old(initialized) ==> messages == [SystemMessage(systemPrompt)] && Valid()
      ensures old(Valid()) ==> Valid()
    {
      if !initialized {
        messages := [SystemMessage(systemPrompt)];
        initialized := true;
      }
    }

    /** One chat turn for the input `prompt`, where `answer` is what the
        completion endpoint returned. Returns the payload that was sent
        (none for an empty input) and the text typed out for the reply. */
    method UserTurn(prompt: string, answer: Option<string>) returns (sent: Option<Payload>, shown: string)
      requires Valid()
      modifies this
      ensures Valid()
      ensures messages == Step(old(messages), Turn(prompt, answer))
      ensures messages[0] == old(messages)[0]
      ensures prompt == "" ==> sent == None && shown == "" && messages == old(messages)
      ensures prompt != "" && Truthy(answer) ==>
        messages == old(messages) + [UserMessage(prompt), AssistantMessage(answer.value)]
      ensures prompt != "" && !Truthy(answer) ==>
        messages == old(messages) + [UserMessage(prompt)] && |messages| == |old(messages)| + 1
      ensures prompt != "" ==>
        sent == Some(BuildPayload(old(messages) + [UserMessage(prompt)], prompt, model)) &&
        sent.value.maxTokens == DefaultMaxTokens &&
        var m := sent.value.messages;
        |m| == |old(messages)| + 2 && m[|m| - 2] == m[|m| - 1] == UserMessage(prompt)
      ensures prompt != "" ==> shown == if Truthy(answer) then TypedText(answer.value) else ""
    {
      ghost var next := Step(messages, Turn(prompt, answer));
      StepKeepsWellFormed(messages, Turn(prompt, answer));
      sent, shown := None, "";
      if prompt != "" {
        messages := messages + [UserMessage(prompt)];
        sent := Some(BuildPayload(messages, prompt, model));
        shown := TypeOut(answer);
        if Truthy(answer) {
          messages := messages + [AssistantMessage(answer.value)];
        }
      }
      assert messages == next;
    }

    /** "Clear Chat History": back to the single system message built from
        the system prompt of this page run, whatever the session held. */
    method Reset(systemPrompt: string)
      modifies this
      ensures initialized && messages == [SystemMessage(systemPrompt)]
      ensures Valid()
    {
      messages := [SystemMessage(systemPrompt)];
      initialized := true;
    }

    /** The messages the page renders. */
    function Visible(): (shown: seq<Message>)
      reads this
      requires Valid()
      ensures shown == messages[1..]
    {
      DisplayedWellFormed(messages);
      Displayed(messages)
    }
  }
}
