/**
 * The two-node agent graph: `prepare` adds the system prompt once and the
 * current human turn; `llm` calls the chat model and runs its tool calls for
 * at most three rounds. The chat model, the tools and the prompt builder are
 * oracles passed in as function values.
 */
module Agent {
  import opened Wrappers
  import opened Text

  type Bytes = seq<bv8>

  /** One tool call a reply asks for; the arguments are kept as an opaque text. */
  datatype ToolCall = ToolCall(name: string, args: string, id: string)

  /** A chat-model reply: its text and the tool calls it requests. */
  datatype Reply = Reply(content: string, toolCalls: seq<ToolCall>)

  datatype Message =
    | SystemMsg(content: string)
    | HumanMsg(content: string, rawInput: string)
    | AiMsg(reply: Reply)
    | ToolMsg(content: string, callId: string)

  /** What invoking a tool gives: the result's text, or the text of the exception raised. */
  datatype ToolOutcome = Succeeded(result: string) | Raised(error: string)

  /** The chat model with the tools bound: a transcript in, a reply out. */
  type Model = seq<Message> -> Reply

  /** The tools by name. */
  type Registry = map<string, string -> ToolOutcome>

  /** The system prompt and the formatted human prompt built for a user input. */
  datatype Prompts = Prompts(system: string, human: string)

  type Builder = string -> Prompts

  /** The keys a node returns; `None` for `user_input` when the node leaves it out. */
  datatype Update = Update(messages: seq<Message>, output: string, images: seq<Bytes>, userInput: Option<string>)

  datatype AgentState = AgentState(messages: seq<Message>, output: string, images: seq<Bytes>, userInput: string)

  /** The update `llm` returns, with the transcripts the model was called on, in order. */
  datatype LlmRun = LlmRun(update: Update, prompts: seq<seq<Message>>)

  /** How many follow-up model calls tool results may trigger. */
  const MaxToolRounds: nat := 3

  const ToolErrorPrefix: string := "Tool error: "

  predicate HasSystem(history: seq<Message>) {
    exists i :: 0 <= i < |history| && history[i].SystemMsg?
  }

  /**
   * The `prepare` node: the system prompt unless the history already holds
   * one, then the stripped human prompt (carrying the raw input) unless it is
   * blank; the output, the images and the user input are cleared.
   */
  function PrepareNode(history: seq<Message>, userInput: string, build: Builder): (u: Update)
    ensures |u.messages| <= 2
    ensures u.output == "" && u.images == [] && u.userInput == Some("")
  {
    var p := build(userInput);
    var system := if HasSystem(history) then [] else [SystemMsg(p.system)];
    var text := Strip(p.human);
    var human := if text == [] then [] else [HumanMsg(text, userInput)];
    Update(system + human, "", [], Some(""))
  }

  /** The text of the tool message for one outcome. */
  function Render(o: ToolOutcome): string {
    match o
    case Succeeded(result) => result
    case Raised(error) => ToolErrorPrefix + error
  }

  /** The message answering one call: none when the tool is unknown. */
  function Answer(c: ToolCall, tools: Registry): (r: seq<Message>)
    ensures |r| <= 1
  {
    if c.name in tools then [ToolMsg(Render(tools[c.name](c.args)), c.id)] else []
  }

  /** The tool messages of one round: the calls answered in the order they were requested. */
  function ToolMessages(calls: seq<ToolCall>, tools: Registry): (r: seq<Message>)
    ensures |r| <= |calls|
    decreases |calls|
  {
    if |calls| == 0 then [] else Answer(calls[0], tools) + ToolMessages(calls[1..], tools)
  }

  /** The calls naming a known tool, in order. */
  function Known(calls: seq<ToolCall>, tools: Registry): (r: seq<ToolCall>)
    ensures forall c :: c in r <==> c in calls && c.name in tools
    ensures (forall c :: c in calls ==> c.name in tools) ==> r == calls
    ensures (forall c :: c in calls ==> c.name !in tools) ==> r == []
    decreases |calls|
  {
    if |calls| == 0 then []
    else (if calls[0].name in tools then [calls[0]] else []) + Known(calls[1..], tools)
  }

  /** One tool message per known call, with that call's id and rendered outcome. */
  function Answers(known: seq<ToolCall>, tools: Registry): (r: seq<Message>)
    requires forall c :: c in known ==> c.name in tools
    ensures |r| == |known|
  {
    seq(|known|, k requires 0 <= k < |known| => ToolMsg(Render(tools[known[k].name](known[k].args)), known[k].id))
  }

  /** The transcript the model sees next after replying to `t`: `t`, the reply and its tool messages. */
  function Step(model: Model, tools: Registry, t: seq<Message>): seq<Message> {
    t + [AiMsg(model(t))] + ToolMessages(model(t).toolCalls, tools)
  }

  /**
   * The tool rounds of `llm` after a reply `resp`, with `added` the messages
   * produced so far and `prompts` the transcripts the model was called on.
   */
  function Rounds(model: Model, tools: Registry, history: seq<Message>, added: seq<Message>, resp: Reply,
                  rounds: nat, prompts: seq<seq<Message>>): LlmRun
    requires rounds <= MaxToolRounds
    decreases MaxToolRounds - rounds
  {
    var answers := ToolMessages(resp.toolCalls, tools);
    if |resp.toolCalls| > 0 && rounds < MaxToolRounds && answers != [] then
      var prompt := history + added + answers;
      var next := model(prompt);
      Rounds(model, tools, history, added + answers + [AiMsg(next)], next, rounds + 1, prompts + [prompt])
    else
      LlmRun(Update(added, resp.content, [], None), prompts)
  }

  /** The `llm` node: nothing for an empty history, otherwise a first model call and the tool rounds. */
  function LlmNode(history: seq<Message>, model: Model, tools: Registry): (r: LlmRun)
    ensures r.update.images == [] && r.update.userInput.None?
    ensures |r.prompts| <= MaxToolRounds + 1
  {
    if history == [] then LlmRun(Update([], "", [], None), [])
    else
      var resp := model(history);
      RoundsFacts(model, tools, history, [AiMsg(resp)], resp, 0, [history]);
      Rounds(model, tools, history, [AiMsg(resp)], resp, 0, [history])
  }

  /** The graph's state after a node's update: messages appended, the other returned keys replaced. */
  function Apply(s: AgentState, u: Update): (r: AgentState)
    ensures |s.messages| <= |r.messages| && r.messages[..|s.messages|] == s.messages
  {
    AgentState(s.messages + u.messages, u.output, u.images,
               if u.userInput.Some? then u.userInput.value else s.userInput)
  }

  /** One turn of the graph: `prepare`, then `llm` on the prepared history. */
  function Turn(s: AgentState, build: Builder, model: Model, tools: Registry): (r: AgentState) {
    var prepared := Apply(s, PrepareNode(s.messages, s.userInput, build));
    Apply(prepared, LlmNode(prepared.messages, model, tools).update)
  }

  /** What holds of the transcripts while the rounds run. */
  predicate Traced(model: Model, tools: Registry, history: seq<Message>, messages: seq<Message>, prompts: seq<seq<Message>>) {
    && 0 < |prompts|
    && prompts[0] == history
    && (forall k :: 0 < k < |prompts| ==> prompts[k] == Step(model, tools, prompts[k - 1]))
    && (forall k :: 0 <= k < |prompts| - 1 ==> ToolMessages(model(prompts[k]).toolCalls, tools) != [])
    && history + messages == prompts[|prompts| - 1] + [AiMsg(model(prompts[|prompts| - 1]))]
  }

  lemma {:induction false} RoundsFacts(model: Model, tools: Registry, history: seq<Message>, added: seq<Message>, resp: Reply,
                                       rounds: nat, prompts: seq<seq<Message>>)
    requires rounds <= MaxToolRounds && |prompts| == rounds + 1
    requires resp == model(prompts[|prompts| - 1])
    requires Traced(model, tools, history, added, prompts)
    ensures var r := Rounds(model, tools, history, added, resp, rounds, prompts);
      && Traced(model, tools, history, r.update.messages, r.prompts)
      && |prompts| <= |r.prompts| <= MaxToolRounds + 1
      && r.update.output == model(r.prompts[|r.prompts| - 1]).content
      && (|r.prompts| <= MaxToolRounds ==> ToolMessages(model(r.prompts[|r.prompts| - 1]).toolCalls, tools) == [])
      && r.update.images == [] && r.update.userInput.None?
    decreases MaxToolRounds - rounds
  {
    var answers := ToolMessages(resp.toolCalls, tools);
    if |resp.toolCalls| > 0 && rounds < MaxToolRounds && answers != [] {
      var prompt := history + added + answers;
      var next := model(prompt);
      var prompts' := prompts + [prompt];
      assert prompt == Step(model, tools, prompts[|prompts| - 1]);
      assert history + (added + answers + [AiMsg(next)]) == prompt + [AiMsg(next)];
      assert Traced(model, tools, history, added + answers + [AiMsg(next)], prompts');
      RoundsFacts(model, tools, history, added + answers + [AiMsg(next)], next, rounds + 1, prompts');
    } else if |resp.toolCalls| == 0 {
      assert answers == [];
    }
  }

  /** With no history the model is not called and nothing is returned. */
  lemma LlmEmptyHistory(model: Model, tools: Registry)
    ensures LlmNode([], model, tools) == LlmRun(Update([], "", [], None), [])
  {
  }

  /**
   * With a history the model is called one to four times: first on the
   * history, then on each transcript extended by the previous reply and its
   * tool messages; the messages returned are that growth, the output is the
   * last reply's text, and fewer than four calls means the last reply had no
   * tool message to answer it.
   */
  lemma LlmFacts(history: seq<Message>, model: Model, tools: Registry)
    requires history != []
    ensures var r := LlmNode(history, model, tools);
      && 1 <= |r.prompts| <= MaxToolRounds + 1
      && Traced(model, tools, history, r.update.messages, r.prompts)
      && r.update.output == model(r.prompts[|r.prompts| - 1]).content
      && (|r.prompts| <= MaxToolRounds ==> ToolMessages(model(r.prompts[|r.prompts| - 1]).toolCalls, tools) == [])
  {
    var resp := model(history);
    assert history + [AiMsg(resp)] == [history][0] + [AiMsg(model([history][0]))];
    RoundsFacts(model, tools, history, [AiMsg(resp)], resp, 0, [history]);
  }

  /** A round's tool messages answer exactly the calls naming a known tool, in order. */
  lemma {:induction false} ToolMessagesSpec(calls: seq<ToolCall>, tools: Registry)
    ensures ToolMessages(calls, tools) == Answers(Known(calls, tools), tools)
    decreases |calls|
  {
    if |calls| > 0 {
      ToolMessagesSpec(calls[1..], tools);
      var rest := Known(calls[1..], tools);
      if calls[0].name in tools {
        assert Known(calls, tools) == [calls[0]] + rest;
        AnswersCons(calls[0], rest, tools);
      } else {
        assert Known(calls, tools) == rest;
      }
    }
  }

  /** Filtering the calls of two requests one after the other keeps each request's known calls, in order. */
  lemma {:induction false} KnownAppend(a: seq<ToolCall>, b: seq<ToolCall>, tools: Registry)
    ensures Known(a + b, tools) == Known(a, tools) + Known(b, tools)
    decreases |a|
  {
    if |a| > 0 {
      var head := if a[0].name in tools then [a[0]] else [];
      assert (a + b)[0] == a[0] && (a + b)[1..] == a[1..] + b;
      assert Known(a + b, tools) == head + Known(a[1..] + b, tools);
      assert Known(a, tools) == head + Known(a[1..], tools);
      KnownAppend(a[1..], b, tools);
    } else {
      assert a + b == b;
    }
  }

  lemma AnswersAppend(a: seq<ToolCall>, b: seq<ToolCall>, tools: Registry)
    requires forall c :: c in a ==> c.name in tools
    requires forall c :: c in b ==> c.name in tools
    ensures Answers(a + b, tools) == Answers(a, tools) + Answers(b, tools)
  {
    var xs := a + b;
    assert forall k :: |a| <= k < |xs| ==> xs[k] == b[k - |a|];
  }

  /**
   * The tool messages of calls requested one after the other are those of
   * the first calls followed by those of the later ones: answers come in the
   * order the calls were requested.
   */
  lemma ToolMessagesAppend(a: seq<ToolCall>, b: seq<ToolCall>, tools: Registry)
    ensures ToolMessages(a + b, tools) == ToolMessages(a, tools) + ToolMessages(b, tools)
  {
    ToolMessagesSpec(a + b, tools);
    ToolMessagesSpec(a, tools);
    ToolMessagesSpec(b, tools);
    KnownAppend(a, b, tools);
    AnswersAppend(Known(a, tools), Known(b, tools), tools);
  }

  lemma AnswersCons(c: ToolCall, rest: seq<ToolCall>, tools: Registry)
    requires c.name in tools && forall d :: d in rest ==> d.name in tools
    ensures Answers([c] + rest, tools) == Answer(c, tools) + Answers(rest, tools)
  {
    var xs := [c] + rest;
    assert forall k :: 0 < k < |xs| ==> xs[k] == rest[k - 1];
  }

  /** A round yields no tool message exactly when every call names an unknown tool. */
  lemma NoAnswersIff(calls: seq<ToolCall>, tools: Registry)
    ensures ToolMessages(calls, tools) == [] <==> forall c :: c in calls ==> c.name !in tools
  {
    ToolMessagesSpec(calls, tools);
    var known := Known(calls, tools);
    if known != [] {
      assert known[0] in known;
    }
  }

  /** When the first reply names only unknown tools, the loop stops after that one call. */
  lemma AllUnknownStops(history: seq<Message>, model: Model, tools: Registry)
    requires history != []
    requires forall c :: c in model(history).toolCalls ==> c.name !in tools
    ensures var r := LlmNode(history, model, tools);
      r.prompts == [history] && r.update.messages == [AiMsg(model(history))]
      && r.update.output == model(history).content
  {
    NoAnswersIff(model(history).toolCalls, tools);
  }

  /**
   * `prepare` adds a system message exactly when the history has none, and
   * then first; it adds the stripped human prompt with the raw input exactly
   * when that is not blank; afterwards the history holds a system message.
   */
  lemma PrepareFacts(history: seq<Message>, userInput: string, build: Builder)
    ensures var u := PrepareNode(history, userInput, build);
      var text := Strip(build(userInput).human);
      && ((exists i :: 0 <= i < |u.messages| && u.messages[i].SystemMsg?) <==> !HasSystem(history))
      && (!HasSystem(history) ==> u.messages[0] == SystemMsg(build(userInput).system))
      && (HumanMsg(text, userInput) in u.messages <==> text != [])
      && (forall m :: m in u.messages && m.HumanMsg? ==> m == HumanMsg(text, userInput))
      && HasSystem(history + u.messages)
  {
    var u := PrepareNode(history, userInput, build);
    if !HasSystem(history) {
      assert (history + u.messages)[|history|] == u.messages[0];
    } else {
      var i :| 0 <= i < |history| && history[i].SystemMsg?;
      assert (history + u.messages)[i] == history[i];
    }
  }

  /** A human message `prepare` adds starts and ends with a non-space character. */
  lemma PreparedHumanStripped(history: seq<Message>, userInput: string, build: Builder)
    ensures forall m :: m in PrepareNode(history, userInput, build).messages && m.HumanMsg? ==>
      |m.content| > 0 && !IsSpace(m.content[0]) && !IsSpace(m.content[|m.content| - 1])
  {
    PrepareFacts(history, userInput, build);
    StripEnds(build(userInput).human);
  }

  /**
   * A turn always calls the model, one to four times, on the prepared
   * history; it appends the prepared and produced messages to the history,
   * clears the user input and the images, and outputs the last reply's text.
   */
  lemma TurnFacts(s: AgentState, build: Builder, model: Model, tools: Registry)
    ensures var u := PrepareNode(s.messages, s.userInput, build);
      var run := LlmNode(s.messages + u.messages, model, tools);
      var r := Turn(s, build, model, tools);
      && 1 <= |run.prompts| <= MaxToolRounds + 1
      && run.prompts[0] == s.messages + u.messages
      && r.messages == s.messages + u.messages + run.update.messages
      && r.output == model(run.prompts[|run.prompts| - 1]).content
      && r.userInput == "" && r.images == []
  {
    var u := PrepareNode(s.messages, s.userInput, build);
    var h := s.messages + u.messages;
    PrepareFacts(s.messages, s.userInput, build);
    assert h != [] by {
      var i :| 0 <= i < |h| && h[i].SystemMsg?;
    }
    LlmFacts(h, model, tools);
  }
}
