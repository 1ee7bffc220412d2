/** One turn of `knowYourself` (know_yourself.js): the user's input is
    appended to the session history, OpenRouter is asked with the
    personality-questions prompt, and a reply that says "RETRIEVE" leads to a
    book search and a verdict asked with the verdict prompt and the book
    passages (`handleRetrievalAndVerdict`). Any failure on that path repeats
    the same steps once on Gemini over the history as it then stands. The
    history is saved once, when a path completes.

    Unlike relationship_advice.js, no tool message is added: the passages go
    into the verdict's system prompt after "BOOK:", and a reply read with
    optional chaining that finds no choice or candidate gives a default text
    instead of throwing. */
module KnowYourself {
  import opened JsLib
  import opened Retrieval
  import opened Conversation

  /** The two system prompts (constants of the prompt archive). */
  datatype Prompts = Prompts(questions: string, verdict: string)

  const NoOpenRouterResponse: string := "[No response from OpenRouter]"
  const NoGeminiResponse: string := "[No response from Gemini]"
  const KnowYourselfFailed: string := "Failed to process 'know yourself'"

  // ---------------------------------------------------------------------------
  // Reading replies with optional chaining

  /** `data.choices[0]?.message?.content.trim() ?? missing`. A missing
      `choices` list, or a message without `content`, makes the read throw
      (None); no first choice, or a first choice without a message, gives
      `missing`. */
  function ChatTextOr(c: Call<ChatReply>, missing: string): (t: Option<string>)
    ensures c.Threw? ==> t.None?
    ensures c.Returned? ==>
      var r := c.value;
      && (t.None? <==> r.choices.None?
                       || (|r.choices.value| > 0 && r.choices.value[0].message.Some?
                           && r.choices.value[0].message.value.content.None?))
      && ((r.choices.Some? && (|r.choices.value| == 0 || r.choices.value[0].message.None?))
            ==> t == Some(missing))
      && (StrictChatText(r).Some? ==> t == StrictChatText(r))
  {
    match c
    case Threw => None
    case Returned(r) =>
      match r.choices
      case None => None
      case Some(cs) =>
        if |cs| == 0 then Some(missing)
        else
          match cs[0].message
          case None => Some(missing)
          case Some(m) =>
            match m.content
            case None => None
            case Some(x) => Some(Trim(x))
  }

  /** `data.candidates[0]?.content?.parts[0]?.text.trim() ?? missing`. A
      missing `candidates` list, a content without `parts`, or a part without
      `text` makes the read throw (None); no first candidate, a candidate
      without content, or an empty `parts` list gives `missing`. */
  function GeminiTextOr(c: Call<GeminiReply>, missing: string): (t: Option<string>)
    ensures c.Threw? ==> t.None?
    ensures c.Returned? ==>
      var r := c.value;
      && (t.None? <==> r.candidates.None?
                       || (|r.candidates.value| > 0 && r.candidates.value[0].content.Some?
                           && var parts := r.candidates.value[0].content.value.parts;
                              (parts.None? || (|parts.value| > 0 && parts.value[0].text.None?))))
      && ((r.candidates.Some?
           && (|r.candidates.value| == 0 || r.candidates.value[0].content.None?
               || (r.candidates.value[0].content.value.parts.Some?
                   && |r.candidates.value[0].content.value.parts.value| == 0)))
            ==> t == Some(missing))
      && (StrictGeminiText(r).Some? ==> t == StrictGeminiText(r))
  {
    match c
    case Threw => None
    case Returned(r) =>
      match r.candidates
      case None => None
      case Some(cs) =>
        if |cs| == 0 then Some(missing)
        else
          match cs[0].content
          case None => Some(missing)
          case Some(content) =>
            match content.parts
            case None => None
            case Some(ps) =>
              if |ps| == 0 then Some(missing)
              else
                match ps[0].text
                case None => None
                case Some(x) => Some(Trim(x))
  }

  /** What the OpenRouter pass reads: the question reply defaults to "", the
      verdict to "[No response from OpenRouter]". */
  function PrimaryReplies(s: Script<ChatReply>): Replies {
    Replies(ChatTextOr(s.reply, ""), s.search, ChatTextOr(s.verdict, NoOpenRouterResponse))
  }

  /** What the Gemini pass reads: both replies default to "[No response from Gemini]". */
  function FallbackReplies(s: Script<GeminiReply>): Replies {
    Replies(GeminiTextOr(s.reply, NoGeminiResponse), s.search, GeminiTextOr(s.verdict, NoGeminiResponse))
  }

  // ---------------------------------------------------------------------------
  // Requests

  /** A system prompt followed by the history, sent to a model: OpenRouter
      receives the messages, Gemini the messages formatted with the "User" /
      "Assistant" labels of this handler's `formatGeminiMessages`. */
  function Ask(model: Backend, system: string, messages: seq<Message>): ServiceCall {
    var request := [Message(System, system)] + messages;
    match model
    case OpenRouterModel => OpenRouter(request)
    case GeminiModel => Gemini(FormatGemini(request, false))
  }

  /** The verdict's system prompt: the verdict prompt, a blank line, "BOOK:"
      and the retrieved context. */
  function VerdictSystem(verdictPrompt: string, context: string): string {
    verdictPrompt + "\n\nBOOK:\n" + context
  }

  /** The request `handleRetrievalAndVerdict` makes with the search hits. */
  function VerdictRequest(model: Backend, verdictPrompt: string, docs: seq<Hit>,
                          messages: seq<Message>): ServiceCall {
    Ask(model, VerdictSystem(verdictPrompt, ContextOf(docs)), messages)
  }

  // ---------------------------------------------------------------------------
  // The turn

  /** The steps on one model, from `history`: ask, append the reply; when it
      says "RETRIEVE", search for its query, ask for the verdict with the
      passages and append the verdict. A failure stops the pass where it is. */
  function Attempt(model: Backend, prompts: Prompts, history: seq<Message>, rs: Replies): Pass {
    var ask := Ask(model, prompts.questions, history);
    match rs.reply
    case None => Pass(false, history, "", [ask])
    case Some(reply) =>
      var m1 := history + [Message(Assistant, reply)];
      if !AsksRetrieval(reply) then Pass(true, m1, reply, [ask])
      else
        var search := Search(RetrieveQuery(reply), DefaultK);
        match rs.search
        case Threw => Pass(false, m1, "", [ask, search])
        case Returned(docs) =>
          var verdict := VerdictRequest(model, prompts.verdict, docs, m1);
          match rs.verdict
          case None => Pass(false, m1, "", [ask, search, verdict])
          case Some(v) => Pass(true, m1 + [Message(Assistant, v)], v, [ask, search, verdict])
  }

  /** A turn: the input is appended, OpenRouter is tried, and on failure
      Gemini is tried once from the history as it then stands; a Gemini
      failure answers 500 and saves nothing. */
  function KnowYourselfTurn(history: seq<Message>, userInput: string, prompts: Prompts,
                            primary: Script<ChatReply>, fallback: Script<GeminiReply>): Turn
  {
    var m0 := history + [Message(User, userInput)];
    var p := Attempt(OpenRouterModel, prompts, m0, PrimaryReplies(primary));
    Settle(p, Attempt(GeminiModel, prompts, p.messages, FallbackReplies(fallback)), KnowYourselfFailed)
  }

  /** `handleRetrievalAndVerdict(query, messages, ...)`: search, then ask for
      the verdict with the distinct passages in the system prompt. */
  method HandleRetrievalAndVerdict(model: Backend, verdictPrompt: string, query: string,
                                   messages: seq<Message>, searched: Call<seq<Hit>>, verdict: Option<string>)
    returns (ok: bool, response: string, calls: seq<ServiceCall>)
    ensures |calls| >= 1 && calls[0] == Search(query, DefaultK)
    ensures searched.Threw? ==> !ok && calls == [Search(query, DefaultK)]
    ensures searched.Returned? ==>
      && calls == [Search(query, DefaultK), VerdictRequest(model, verdictPrompt, searched.value, messages)]
      && ok == verdict.Some?
      && (ok ==> response == verdict.value)
  {
    calls := [Search(query, DefaultK)];
    ok, response := false, "";
    if searched.Threw? {
      return;
    }
    var docs := searched.value;
    var uniqueDocs := Distinct(Contents(docs));
    var context := Join(uniqueDocs, "\n");
    calls := calls + [Ask(model, VerdictSystem(verdictPrompt, context), messages)];
    if verdict.Some? {
      ok, response := true, verdict.value;
    }
  }

  /** The steps of `Attempt`, pushing onto the history as they go. */
  method RunAttempt(model: Backend, prompts: Prompts, history: seq<Message>, rs: Replies)
    returns (ok: bool, messages: seq<Message>, response: string, calls: seq<ServiceCall>)
    ensures Pass(ok, messages, response, calls) == Attempt(model, prompts, history, rs)
  {
    ok, messages, response, calls := false, history, "", [];
    calls := calls + [Ask(model, prompts.questions, messages)];
    if rs.reply.None? {
      return;
    }
    var reply := rs.reply.value;
    messages := messages + [Message(Assistant, reply)];
    response := reply;
    if Contains(reply, Retrieve) {
      var verdictCalls;
      ok, response, verdictCalls :=
        HandleRetrievalAndVerdict(model, prompts.verdict, RetrieveQuery(reply), messages, rs.search, rs.verdict);
      calls := calls + verdictCalls;
      if !ok {
        response := "";
        return;
      }
      messages := messages + [Message(Assistant, response)];
    }
    ok := true;
  }

  /** `knowYourself(req, res)` after the history is loaded. */
  method KnowYourselfHandler(history: seq<Message>, userInput: string, prompts: Prompts,
                             primary: Script<ChatReply>, fallback: Script<GeminiReply>)
    returns (turn: Turn)
    ensures turn == KnowYourselfTurn(history, userInput, prompts, primary, fallback)
  {
    var messages := history;
    messages := messages + [Message(User, userInput)];
    var ok, response, calls;
    ok, messages, response, calls := RunAttempt(OpenRouterModel, prompts, messages, PrimaryReplies(primary));
    if ok {
      return Turn(Json(response), Some(messages), calls);
    }
    var fallbackOk, fallbackCalls;
    fallbackOk, messages, response, fallbackCalls :=
      RunAttempt(GeminiModel, prompts, messages, FallbackReplies(fallback));
    calls := calls + fallbackCalls;
    if !fallbackOk {
      return Turn(ServerError(KnowYourselfFailed), None, calls);
    }
    return Turn(Json(response), Some(messages), calls);
  }

  // ---------------------------------------------------------------------------
  // Properties

  /** What a finished pass appends: the reply alone when it does not say
      "RETRIEVE", otherwise the reply and the verdict, which is returned.
      Either way only assistant messages are appended, never a tool message. */
  predicate Finished(ext: seq<Message>, response: string) {
    || (ext == [Message(Assistant, response)] && !AsksRetrieval(response))
    || (|ext| == 2 && ext[0].role == Assistant && AsksRetrieval(ext[0].content)
        && ext[1] == Message(Assistant, response))
  }

  /** What a failed pass leaves behind: nothing, or the reply that asked for
      retrieval. */
  predicate Abandoned(ext: seq<Message>) {
    || ext == []
    || (|ext| == 1 && ext[0].role == Assistant && AsksRetrieval(ext[0].content))
  }

  /** A pass only appends to the history: a finished pass its reply (and
      verdict), a failed one whatever it appended before the failure. It
      first asks the model with the questions prompt and the history it
      started from; after a "RETRIEVE" it searches for the reply's query and
      asks for the verdict with the passages after "BOOK:". */
  lemma {:induction false} AttemptAppends(model: Backend, prompts: Prompts, history: seq<Message>, rs: Replies)
    ensures var p := Attempt(model, prompts, history, rs);
      && |p.messages| >= |history| && p.messages[..|history|] == history
      && (p.ok ==> Finished(p.messages[|history|..], p.response))
      && (!p.ok ==> Abandoned(p.messages[|history|..]))
      && 1 <= |p.calls| <= 3 && p.calls[0] == Ask(model, prompts.questions, history)
      && (|p.calls| >= 2 ==>
            rs.reply.Some? && AsksRetrieval(rs.reply.value)
            && p.calls[1] == Search(RetrieveQuery(rs.reply.value), DefaultK))
      && (|p.calls| == 3 ==>
            rs.search.Returned?
            && p.calls[2] == VerdictRequest(model, prompts.verdict, rs.search.value,
                                            history + [Message(Assistant, rs.reply.value)]))
  {
    var p := Attempt(model, prompts, history, rs);
    var ext := p.messages[|history|..];
    assert p.messages == history + ext;
  }

  /** The input is appended before any model is asked: the first request
      holds the questions prompt and the history ending in the input, and
      whatever is saved starts with that history. */
  lemma UserMessageFirst(history: seq<Message>, userInput: string, prompts: Prompts,
                         primary: Script<ChatReply>, fallback: Script<GeminiReply>)
    ensures var t := KnowYourselfTurn(history, userInput, prompts, primary, fallback);
      var m0 := history + [Message(User, userInput)];
      && |t.calls| >= 1
      && t.calls[0] == OpenRouter([Message(System, prompts.questions)] + m0)
      && (t.saved.Some? <==> t.reply.Json?)
      && (t.saved.Some? ==> |t.saved.value| > |m0| && t.saved.value[..|m0|] == m0)
  {
    var m0 := history + [Message(User, userInput)];
    var p := Attempt(OpenRouterModel, prompts, m0, PrimaryReplies(primary));
    var f := Attempt(GeminiModel, prompts, p.messages, FallbackReplies(fallback));
    AttemptAppends(OpenRouterModel, prompts, m0, PrimaryReplies(primary));
    AttemptAppends(GeminiModel, prompts, p.messages, FallbackReplies(fallback));
    SettleCalls(p, f, KnowYourselfFailed);
    var t := Settle(p, f, KnowYourselfFailed);
    if !p.ok && f.ok {
      assert f.messages[..|m0|] == p.messages[..|m0|];
    }
    assert t.calls[0] == p.calls[0];
  }

  /** An OpenRouter reply with no first choice, or a first choice without a
      message, is read as the empty reply; a Gemini reply with no first
      candidate reads "[No response from Gemini]". */
  lemma MissingReplies(choices: seq<Choice>, candidates: seq<Candidate>)
    requires |choices| == 0 || choices[0].message.None?
    requires |candidates| == 0 || candidates[0].content.None?
    ensures ChatTextOr(Returned(ChatReply(Some(choices))), "") == Some("")
    ensures GeminiTextOr(Returned(GeminiReply(Some(candidates))), NoGeminiResponse) == Some(NoGeminiResponse)
    ensures GeminiTextOr(Returned(GeminiReply(Some([Candidate(Some(GeminiContent(Some([]))))]))), NoGeminiResponse)
         == Some(NoGeminiResponse)
  {
  }

  /** A primary pass whose reply says "RETRIEVE" and whose search and verdict
      succeed saves user input, reply and verdict, in that order, with no
      tool message, and returns the verdict; it searches for the reply's
      query and sends the passages after "BOOK:" in the verdict's system
      prompt. */
  lemma RetrievalOrder(history: seq<Message>, userInput: string, prompts: Prompts,
                       primary: Script<ChatReply>, fallback: Script<GeminiReply>)
    requires ChatTextOr(primary.reply, "").Some? && AsksRetrieval(ChatTextOr(primary.reply, "").value)
    requires primary.search.Returned? && ChatTextOr(primary.verdict, NoOpenRouterResponse).Some?
    ensures var reply := ChatTextOr(primary.reply, "").value;
      var verdict := ChatTextOr(primary.verdict, NoOpenRouterResponse).value;
      var docs := primary.search.value;
      var m1 := history + [Message(User, userInput), Message(Assistant, reply)];
      var t := KnowYourselfTurn(history, userInput, prompts, primary, fallback);
      && t.reply == Json(verdict)
      && t.saved == Some(m1 + [Message(Assistant, verdict)])
      && t.calls == [OpenRouter([Message(System, prompts.questions)] + history + [Message(User, userInput)]),
                     Search(RetrieveQuery(reply), DefaultK),
                     OpenRouter([Message(System, prompts.verdict + "\n\nBOOK:\n" + ContextOf(docs))] + m1)]
  {
    var reply := ChatTextOr(primary.reply, "").value;
    var m0 := history + [Message(User, userInput)];
    var p := Attempt(OpenRouterModel, prompts, m0, PrimaryReplies(primary));
    assert p.ok;
    assert m0 + [Message(Assistant, reply)] == history + [Message(User, userInput), Message(Assistant, reply)];
    assert [Message(System, prompts.questions)] + m0
        == [Message(System, prompts.questions)] + history + [Message(User, userInput)];
  }

  /** A primary reply without "RETRIEVE" is the answer: only the input and the
      reply are saved, and no search or second call is made. */
  lemma DirectAnswer(history: seq<Message>, userInput: string, prompts: Prompts,
                     primary: Script<ChatReply>, fallback: Script<GeminiReply>)
    requires ChatTextOr(primary.reply, "").Some? && !AsksRetrieval(ChatTextOr(primary.reply, "").value)
    ensures var reply := ChatTextOr(primary.reply, "").value;
      var t := KnowYourselfTurn(history, userInput, prompts, primary, fallback);
      && t.reply == Json(reply)
      && t.saved == Some(history + [Message(User, userInput), Message(Assistant, reply)])
      && |t.calls| == 1
  {
    var reply := ChatTextOr(primary.reply, "").value;
    var m0 := history + [Message(User, userInput)];
    var p := Attempt(OpenRouterModel, prompts, m0, PrimaryReplies(primary));
    assert PrimaryReplies(primary).reply == Some(reply);
    assert p == Pass(true, m0 + [Message(Assistant, reply)], reply, [Ask(OpenRouterModel, prompts.questions, m0)]);
    assert m0 + [Message(Assistant, reply)] == history + [Message(User, userInput), Message(Assistant, reply)];
  }

  /** Any failure on the OpenRouter path, the verdict included, leads to
      exactly one Gemini request built from the history as the failed pass
      left it, reply included: nothing is rolled back. No Gemini request is
      made when OpenRouter's path completes. */
  lemma FallbackFromCurrentHistory(history: seq<Message>, userInput: string, prompts: Prompts,
                                   primary: Script<ChatReply>, fallback: Script<GeminiReply>)
    ensures var m0 := history + [Message(User, userInput)];
      var p := Attempt(OpenRouterModel, prompts, m0, PrimaryReplies(primary));
      var t := KnowYourselfTurn(history, userInput, prompts, primary, fallback);
      && |t.calls| >= |p.calls| && t.calls[..|p.calls|] == p.calls
      && (p.ok ==> t.calls == p.calls && (forall i :: 0 <= i < |t.calls| ==> !t.calls[i].Gemini?))
      && (!p.ok ==>
            && Abandoned(p.messages[|m0|..]) && p.messages[..|m0|] == m0
            && |t.calls| > |p.calls|
            && t.calls[|p.calls|] == Gemini(FormatGemini([Message(System, prompts.questions)] + p.messages, false)))
  {
    var m0 := history + [Message(User, userInput)];
    var p := Attempt(OpenRouterModel, prompts, m0, PrimaryReplies(primary));
    var f := Attempt(GeminiModel, prompts, p.messages, FallbackReplies(fallback));
    AttemptAppends(OpenRouterModel, prompts, m0, PrimaryReplies(primary));
    AttemptAppends(GeminiModel, prompts, p.messages, FallbackReplies(fallback));
    PrimaryNeverGemini(prompts, m0, PrimaryReplies(primary));
    SettleCalls(p, f, KnowYourselfFailed);
  }

  /** The OpenRouter pass only calls OpenRouter and the search. */
  lemma PrimaryNeverGemini(prompts: Prompts, history: seq<Message>, rs: Replies)
    ensures var p := Attempt(OpenRouterModel, prompts, history, rs);
      forall i :: 0 <= i < |p.calls| ==> !p.calls[i].Gemini?
  {
    var p := Attempt(OpenRouterModel, prompts, history, rs);
    var ask := Ask(OpenRouterModel, prompts.questions, history);
    match rs.reply
    case None =>
      assert p.calls == [ask];
    case Some(reply) =>
      var m1 := history + [Message(Assistant, reply)];
      if !AsksRetrieval(reply) {
        assert p.calls == [ask];
      } else {
        var search := Search(RetrieveQuery(reply), DefaultK);
        match rs.search
        case Threw =>
          assert p.calls == [ask, search];
        case Returned(docs) =>
          assert p.calls == [ask, search, VerdictRequest(OpenRouterModel, prompts.verdict, docs, m1)];
      }
  }

  /** A Gemini request of this handler labels the system prompt and every
      assistant message "Assistant" and user messages "User", one part per
      message in order. */
  lemma GeminiRequestParts(system: string, messages: seq<Message>)
    ensures var call := Ask(GeminiModel, system, messages);
      && |call.parts| == |messages| + 1
      && call.parts[0] == "Assistant: " + system
      && forall i :: 0 <= i < |messages| ==>
           call.parts[i + 1] == (if messages[i].role == User then "User" else "Assistant") + ": " + messages[i].content
  {
    var request := [Message(System, system)] + messages;
    FormatGeminiParts(request, false);
    assert request[0] == Message(System, system);
    assert forall i :: 0 <= i < |messages| ==> request[i + 1] == messages[i];
  }
}
