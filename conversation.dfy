/** What the three conversation handlers (ragPipeline.js,
    relationship_advice.js, know_yourself.js) share: chat messages, the
    shapes of the OpenRouter and Gemini replies they read, the record of
    remote calls a turn makes, the "RETRIEVE" convention, the context built
    from search hits and the Gemini prompt formatting.

    A remote call either threw (network error, error status) or returned a
    body; which of the two, and which body, is an input of the model. */
module Conversation {
  import opened JsLib
  import opened Retrieval

  datatype Role = User | Assistant | Tool | System

  /** `{role, content}`. */
  datatype Message = Message(role: Role, content: string)

  /** The outcome of an awaited remote call. */
  datatype Call<T> = Threw | Returned(value: T)

  /** The OpenRouter chat-completion body: `choices[i].message.content`,
      each level possibly absent. */
  datatype ChatMessage = ChatMessage(content: Option<string>)
  datatype Choice = Choice(message: Option<ChatMessage>)
  datatype ChatReply = ChatReply(choices: Option<seq<Choice>>)

  /** The Gemini generateContent body: `candidates[i].content.parts[j].text`,
      each level possibly absent. */
  datatype Part = Part(text: Option<string>)
  datatype GeminiContent = GeminiContent(parts: Option<seq<Part>>)
  datatype Candidate = Candidate(content: Option<GeminiContent>)
  datatype GeminiReply = GeminiReply(candidates: Option<seq<Candidate>>)

  /** One remote call, with the request it sent. */
  datatype ServiceCall =
    | Search(query: string, k: nat)
    | OpenRouter(messages: seq<Message>)
    | Gemini(parts: seq<string>)

  /** The replies the services give to one pass of a conversation turn, in
      the order the pass asks for them: the model's first reply, the search
      for its RETRIEVE query, and the model's verdict. Which reply a service
      gives is left open; the requests are recorded in the turn's calls. */
  datatype Script<R> = Script(reply: Call<R>, search: Call<seq<Hit>>, verdict: Call<R>)

  /** The HTTP reply of a session handler: `res.json({message})` or a 500
      with `{error}`. */
  datatype Reply = Json(message: string) | ServerError(error: string)

  /** What a session request did: its reply, the history it saved (None when
      it saved nothing) and the remote calls it made, in order. */
  datatype Turn = Turn(reply: Reply, saved: Option<seq<Message>>, calls: seq<ServiceCall>)

  /** The text a pass reads from each model reply (None: the call, or the
      read of its body, threw), and what the search returned. */
  datatype Replies = Replies(reply: Option<string>, search: Call<seq<Hit>>, verdict: Option<string>)

  /** One pass of a handler's steps on one model: whether it finished, the
      history as it stands afterwards, the message to return and the calls. */
  datatype Pass = Pass(ok: bool, messages: seq<Message>, response: string, calls: seq<ServiceCall>)

  /** The turn a primary pass `p` and a fallback pass `f` give: `p` when it
      finished, otherwise `f` when it finished, otherwise a 500 error with
      `failure`; the fallback counts only when the primary pass failed. */
  function Settle(p: Pass, f: Pass, failure: string): Turn {
    if p.ok then Turn(Json(p.response), Some(p.messages), p.calls)
    else if f.ok then Turn(Json(f.response), Some(f.messages), p.calls + f.calls)
    else Turn(ServerError(failure), None, p.calls + f.calls)
  }

  /** The calls of a settled turn: the primary pass's, then the fallback's
      only when the primary pass failed; the history is saved exactly when
      the turn answers with JSON. */
  lemma SettleCalls(p: Pass, f: Pass, failure: string)
    requires |f.calls| >= 1
    ensures var t := Settle(p, f, failure);
      && |t.calls| >= |p.calls| && t.calls[..|p.calls|] == p.calls
      && (p.ok ==> t.calls == p.calls)
      && (!p.ok ==> |t.calls| > |p.calls| && t.calls[|p.calls|] == f.calls[0])
      && (t.saved.Some? <==> t.reply.Json?)
      && (t.reply.ServerError? ==> t.reply.error == failure)
  {
    var t := Settle(p, f, failure);
    if !p.ok {
      assert t.calls == p.calls + f.calls;
      assert t.calls[..|p.calls|] == p.calls;
    }
  }

  /** The model a turn asks: OpenRouter first, Gemini as the fallback. */
  datatype Backend = OpenRouterModel | GeminiModel

  /** The `k` of `VectorStore.search` when the caller gives none. */
  const DefaultK: nat := 5

  // ---------------------------------------------------------------------------
  // Strict reads: no optional chaining, so any missing level throws (None).

  /** `data.choices[0].message.content.trim()`. */
  function StrictChatText(r: ChatReply): (t: Option<string>)
    ensures t.Some? <==> r.choices.Some? && |r.choices.value| > 0
                          && r.choices.value[0].message.Some?
                          && r.choices.value[0].message.value.content.Some?
    ensures t.Some? ==> t.value == Trim(r.choices.value[0].message.value.content.value)
  {
    match r.choices
    case None => None
    case Some(cs) =>
      if |cs| == 0 then None
      else
        match cs[0].message
        case None => None
        case Some(m) =>
          match m.content
          case None => None
          case Some(c) => Some(Trim(c))
  }

  /** `data.candidates[0].content.parts[0].text.trim()`. */
  function StrictGeminiText(r: GeminiReply): (t: Option<string>)
    ensures t.Some? <==> r.candidates.Some? && |r.candidates.value| > 0
                          && r.candidates.value[0].content.Some?
                          && r.candidates.value[0].content.value.parts.Some?
                          && |r.candidates.value[0].content.value.parts.value| > 0
                          && r.candidates.value[0].content.value.parts.value[0].text.Some?
    ensures t.Some? ==> t.value == Trim(r.candidates.value[0].content.value.parts.value[0].text.value)
  {
    match r.candidates
    case None => None
    case Some(cs) =>
      if |cs| == 0 then None
      else
        match cs[0].content
        case None => None
        case Some(c) =>
          match c.parts
          case None => None
          case Some(ps) =>
            if |ps| == 0 then None
            else
              match ps[0].text
              case None => None
              case Some(t) => Some(Trim(t))
  }

  // ---------------------------------------------------------------------------
  // RETRIEVE

  const Retrieve: string := "RETRIEVE"

  /** `reply.includes("RETRIEVE")`: the reply asks for a book search. */
  predicate AsksRetrieval(reply: string) {
    Contains(reply, Retrieve)
  }

  /** `reply.split("RETRIEVE")[1]?.trim()`, with "" when there is no second piece. */
  function RetrieveQuery(reply: string): string {
    var parts := SplitOn(reply, Retrieve);
    if |parts| >= 2 then Trim(parts[1]) else ""
  }

  /** The query is the text between the first "RETRIEVE" and the next one
      (or the end of the reply), trimmed; a reply without "RETRIEVE" gives "". */
  lemma RetrieveQueryBetween(reply: string)
    ensures !Contains(reply, Retrieve) ==> RetrieveQuery(reply) == ""
    ensures Contains(reply, Retrieve) ==>
      var i := Find(reply, Retrieve).value;
      var rest := reply[i + |Retrieve|..];
      RetrieveQuery(reply) == Trim(match Find(rest, Retrieve)
                                   case None => rest
                                   case Some(j) => rest[..j])
  {
    SplitOnCount(reply, Retrieve);
    SplitOnFind(reply, Retrieve);
    if Contains(reply, Retrieve) {
      var i := Find(reply, Retrieve).value;
      SplitOnFind(reply[i + |Retrieve|..], Retrieve);
    }
  }

  /** A reply that opens with "RETRIEVE" and has no second one asks for the
      rest of the reply, trimmed. */
  lemma RetrieveQueryExample(q: string)
    requires !Contains(q, Retrieve)
    ensures RetrieveQuery(Retrieve + q) == Trim(q)
  {
    var reply := Retrieve + q;
    assert OccursAt(reply, Retrieve, 0) by { assert reply[0..|Retrieve|] == Retrieve; }
    RetrieveQueryBetween(reply);
    assert reply[|Retrieve|..] == q;
  }

  // ---------------------------------------------------------------------------
  // Context from search hits

  /** `docs.map(doc => doc.content)`. */
  function Contents(hits: seq<Hit>): (cs: seq<string>)
    ensures |cs| == |hits| && forall i :: 0 <= i < |hits| ==> cs[i] == hits[i].content
  {
    if hits == [] then [] else Contents(hits[..|hits| - 1]) + [hits[|hits| - 1].content]
  }

  /** `docs.map(doc => doc.docId)`. */
  function DocIds(hits: seq<Hit>): (ds: seq<string>)
    ensures |ds| == |hits| && forall i :: 0 <= i < |hits| ==> ds[i] == hits[i].docId
  {
    if hits == [] then [] else DocIds(hits[..|hits| - 1]) + [hits[|hits| - 1].docId]
  }

  /** `Array.from(new Set(docs.map(doc => doc.content))).join("\n")`. */
  function ContextOf(hits: seq<Hit>): string {
    Join(Distinct(Contents(hits)), "\n")
  }

  /** The context is the distinct contents, each once, in order of first
      appearance, joined by newlines. */
  lemma ContextSpec(hits: seq<Hit>)
    ensures var d := Distinct(Contents(hits));
      && ContextOf(hits) == Join(d, "\n")
      && NoDuplicates(d)
      && (forall i :: 0 <= i < |hits| ==> hits[i].content in d)
      && (forall i :: 0 <= i < |d| ==> exists j :: 0 <= j < |hits| && hits[j].content == d[i])
      && (forall i, j :: 0 <= i < j < |d| ==>
            FirstIndex(Contents(hits), d[i]) < FirstIndex(Contents(hits), d[j]))
  {
    var cs := Contents(hits);
    var d := Distinct(cs);
    DistinctFirstAppearance(cs);
    forall i | 0 <= i < |hits| ensures hits[i].content in d {
      assert cs[i] == hits[i].content;
    }
    forall i | 0 <= i < |d|
      ensures exists j :: 0 <= j < |hits| && hits[j].content == d[i]
    {
      var j := FirstIndex(cs, d[i]);
      assert hits[j].content == d[i];
    }
  }

  /** When no content holds a newline, the distinct contents can be read back
      from the context by splitting it at newlines. */
  lemma ContextReadBack(hits: seq<Hit>)
    requires |hits| >= 1 && forall i :: 0 <= i < |hits| ==> '\n' !in hits[i].content
    ensures SplitOn(ContextOf(hits), "\n") == Distinct(Contents(hits))
  {
    var cs := Contents(hits);
    forall k | 0 <= k < |cs| ensures "\n"[0] !in cs[k] {
      assert cs[k] == hits[k].content;
    }
    SplitJoinDistinct(cs, "\n");
  }

  // ---------------------------------------------------------------------------
  // Gemini prompt formatting

  /** The speaker label of a part: "User" for the user, "Tool" for tool
      output when the formatter distinguishes it, "Assistant" otherwise. */
  function Label(role: Role, labelTool: bool): string {
    if role == User then "User" else if labelTool && role == Tool then "Tool" else "Assistant"
  }

  /** `formatGeminiMessages`: one text part "<label>: <content>" per message. */
  function FormatGemini(messages: seq<Message>, labelTool: bool): seq<string> {
    if messages == [] then []
    else
      var m := messages[|messages| - 1];
      FormatGemini(messages[..|messages| - 1], labelTool) + [Label(m.role, labelTool) + ": " + m.content]
  }

  /** One part per message, in order, each the message's label and content. */
  lemma {:induction false} FormatGeminiParts(messages: seq<Message>, labelTool: bool)
    ensures |FormatGemini(messages, labelTool)| == |messages|
    ensures forall i :: 0 <= i < |messages| ==>
      FormatGemini(messages, labelTool)[i] == Label(messages[i].role, labelTool) + ": " + messages[i].content
    decreases |messages|
  {
    if messages != [] {
      FormatGeminiParts(messages[..|messages| - 1], labelTool);
    }
  }

  /** Formatting works message by message. */
  lemma {:induction false} FormatGeminiConcat(a: seq<Message>, b: seq<Message>, labelTool: bool)
    ensures FormatGemini(a + b, labelTool) == FormatGemini(a, labelTool) + FormatGemini(b, labelTool)
    decreases |b|
  {
    if b == [] {
      assert a + b == a;
    } else {
      assert (a + b)[..|a + b| - 1] == a + b[..|b| - 1];
      FormatGeminiConcat(a, b[..|b| - 1], labelTool);
    }
  }

  /** "User" exactly for user messages; "Tool" exactly for tool messages of a
      formatter that distinguishes them; every other role, system included,
      is "Assistant". */
  lemma LabelCases(role: Role, labelTool: bool)
    ensures Label(role, labelTool) == "User" <==> role == User
    ensures Label(role, labelTool) == "Tool" <==> labelTool && role == Tool
    ensures Label(role, labelTool) == "Assistant" <==> role != User && !(labelTool && role == Tool)
  {
    assert "User"[0] != "Tool"[0] && "User"[0] != "Assistant"[0] && "Tool"[0] != "Assistant"[0];
  }
}
