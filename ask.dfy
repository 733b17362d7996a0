/** The `/ask` endpoint (backend/main.py): the chat history the browser sends
    is turned into the agent's message history, the agent is run on the new
    message, and its output or its exception is wrapped in a JSON envelope.
    The agent run is an oracle. */
module Ask {
  import opened Exceptions

  /** The two roles the request schema admits (`Literal["user", "agent"]`);
      a request with any other role is rejected before the handler runs. */
  datatype Role = User | Agent

  datatype ChatMessage = ChatMessage(role: Role, content: string)

  datatype QueryRequest = QueryRequest(message: string, history: seq<ChatMessage>)

  datatype MessagePart = UserPromptPart(content: string) | TextPart(content: string)

  /** A message of the agent's history: what was asked of the model, or what
      the model answered. */
  datatype ModelMessage = ModelRequest(parts: seq<MessagePart>) | ModelResponse(parts: seq<MessagePart>)

  /** The JSON body returned: `{"response": ...}` or `{"error": ...}`. */
  datatype Envelope = Response(output: string) | Error(error: string)

  /** One history entry as the agent sees it: a user turn becomes a request
      with one user-prompt part, any other turn a response with one text
      part, each holding the entry's text. */
  function ToModelMessage(m: ChatMessage): (r: ModelMessage)
    ensures |r.parts| == 1 && r.parts[0].content == m.content
    ensures r.ModelRequest? <==> m.role == User
    ensures r.ModelRequest? ==> r.parts[0].UserPromptPart?
    ensures r.ModelResponse? ==> r.parts[0].TextPart?
  {
    if m.role == User then ModelRequest([UserPromptPart(m.content)])
    else ModelResponse([TextPart(m.content)])
  }

  /** Reading a message of the agent's history back as a chat entry: a
      request holding one user prompt, or a response holding one text part. */
  function ToChatMessage(m: ModelMessage): Option<ChatMessage> {
    if |m.parts| != 1 then None
    else match m
      case ModelRequest(parts) => if parts[0].UserPromptPart? then Some(ChatMessage(User, parts[0].content)) else None
      case ModelResponse(parts) => if parts[0].TextPart? then Some(ChatMessage(Agent, parts[0].content)) else None
  }

  /** The conversion loses nothing: every entry is read back as it was. */
  lemma ChatRoundTrip(m: ChatMessage)
    ensures ToChatMessage(ToModelMessage(m)) == Some(m)
  {
  }

  /** Reading a whole history back; `None` if any message is not one the
      conversion produces. */
  function ToChatHistory(ms: seq<ModelMessage>): Option<seq<ChatMessage>> {
    if ms == [] then Some([])
    else match (ToChatMessage(ms[0]), ToChatHistory(ms[1..]))
      case (Some(m), Some(rest)) => Some([m] + rest)
      case _ => None
  }

  /** A history converted entry by entry reads back as the chat history it
      came from. */
  lemma {:induction false} HistoryRoundTrip(history: seq<ChatMessage>, ms: seq<ModelMessage>)
    requires |ms| == |history|
    requires forall i :: 0 <= i < |ms| ==> ms[i] == ToModelMessage(history[i])
    ensures ToChatHistory(ms) == Some(history)
  {
    if ms != [] {
      ChatRoundTrip(history[0]);
      HistoryRoundTrip(history[1..], ms[1..]);
      assert history == [history[0]] + history[1..];
    }
  }

  /** `ask_agent(req)`: converts the history entry by entry, in order,
      without the new message, which goes to the agent on its own; returns
      the agent's output, or the text of the exception it raised. */
  method AskAgent(req: QueryRequest, run: (string, seq<ModelMessage>) -> Outcome<string>)
    returns (reply: Envelope, history: seq<ModelMessage>)
    ensures |history| == |req.history|
    ensures forall i :: 0 <= i < |history| ==> history[i] == ToModelMessage(req.history[i])
    ensures ToChatHistory(history) == Some(req.history)
    ensures match run(req.message, history)
      case Ok(output) => reply == Response(output)
      case Raised(e) => reply == Error(e)
  {
    history := [];
    for i := 0 to |req.history|
      invariant |history| == i
      invariant forall j :: 0 <= j < i ==> history[j] == ToModelMessage(req.history[j])
    {
      var msg := req.history[i];
      if msg.role == User {
        history := history + [ModelRequest([UserPromptPart(msg.content)])];
      } else {
        history := history + [ModelResponse([TextPart(msg.content)])];
      }
    }
    HistoryRoundTrip(req.history, history);
    match run(req.message, history) {
      case Ok(output) => reply := Response(output);
      case Raised(e) => reply := Error(e);
    }
  }
}
