/** One request to `handleRelationshipAdvice` (relationship_advice.js): the
    configuration stage that records the couple's types, or an advice turn
    that asks OpenRouter, optionally retrieves book passages and asks for a
    verdict, and on any failure repeats the same steps once on Gemini over
    the history as it stands. The session history is a local list that the
    handler extends step by step and saves once at the end. */
module RelationshipAdvice {
  import opened JsLib
  import opened Retrieval
  import opened Conversation

  /** The request body fields, each defaulting to "". */
  datatype AdviceRequest = AdviceRequest(
    userType: string, partnerType: string, relationshipType: string,
    comment: string, userQuery: string)

  /** The two system prompts (constants of the prompt archive). */
  datatype Prompts = Prompts(advice: string, verdict: string)

  const Stored: string := "User information has been stored successfully."
  const AdviceFailed: string := "Failed to process relationship advice."

  // ---------------------------------------------------------------------------
  // Configuration stage

  /** `add_relationship_comment || "None"`. */
  function Insight(comment: string): string {
    if comment == "" then "None" else comment
  }

  const ConfigHeader: string :=
    "Here are the details given by the user" + " about their enneagram types and relationship dynamics:"

  /** The details the configuration message lists, one per line. */
  function ConfigBody(req: AdviceRequest): string {
    ConfigHeader + ConfigDetails(req)
  }

  function ConfigDetails(req: AdviceRequest): string {
    "\n- User's Enneagram Type: " + req.userType
    + "\n- Partner's Enneagram Type: " + req.partnerType
    + "\n- Relationship Type: " + req.relationshipType
    + "\n- Additional Insights: " + Insight(req.comment)
  }

  /** The template literal, which opens with a newline and closes with a
      newline and indentation, trimmed. */
  function ConfigMessage(req: AdviceRequest): string {
    Trim("\n" + ConfigBody(req) + "\n      ")
  }

  /** Trimming removes exactly the template's own leading newline and trailing
      indentation when the comment does not end in whitespace; an empty
      comment reads "None". */
  lemma ConfigMessageSpec(req: AdviceRequest)
    requires req.comment == "" || !IsSpace(req.comment[|req.comment| - 1])
    ensures ConfigMessage(req) == ConfigBody(req)
    ensures req.comment == "" ==> ConfigMessage(req) == ConfigMessage(req.(comment := "None"))
  {
    ConfigBodyEnds(req);
    var ins := Insight(req.comment);
    assert !IsSpace(ins[|ins| - 1]);
    TrimTemplate(ConfigBody(req));
  }

  /** Trimming a template literal that adds a newline before a text and a
      newline and indentation after it gives back the text, when the text
      neither starts nor ends with whitespace. */
  lemma TrimTemplate(body: string)
    requires |body| > 0 && !IsSpace(body[0]) && !IsSpace(body[|body| - 1])
    ensures Trim("\n" + body + "\n      ") == body
  {
    var tail := "\n      ";
    assert "\n" + body + tail == "\n" + (body + tail);
    assert AllSpace("\n") by { assert IsSpace('\n'); }
    TrimStartPrependSpace("\n", body + tail);
    TrimStartKeeps(body + tail);
    assert AllSpace(tail) by { assert forall i :: 0 <= i < |tail| ==> tail[i] == '\n' || tail[i] == ' '; }
    TrimEndAppendSpace(body, tail);
    TrimEndKeeps(body);
  }

  /** The message starts with the header's "H" and ends with the last
      character of the insight. */
  lemma ConfigBodyEnds(req: AdviceRequest)
    ensures var body := ConfigBody(req);
      var ins := Insight(req.comment);
      |body| > 0 && body[0] == 'H' && body[|body| - 1] == ins[|ins| - 1]
  {
    assert ConfigHeader[0] == 'H';
    var ins := Insight(req.comment);
    var d := ConfigDetails(req);
    assert d[|d| - 1] == ins[|ins| - 1];
  }

  // ---------------------------------------------------------------------------
  // Advice stage

  /** `data.choices[0].message.content.trim()`, None when the call threw. */
  function ReadChat(c: Call<ChatReply>): Option<string> {
    match c
    case Threw => None
    case Returned(r) => StrictChatText(r)
  }

  /** `data.candidates[0].content.parts[0].text.trim()`, None when the call threw. */
  function ReadGemini(c: Call<GeminiReply>): Option<string> {
    match c
    case Threw => None
    case Returned(g) => StrictGeminiText(g)
  }

  function PrimaryReplies(s: Script<ChatReply>): Replies {
    Replies(ReadChat(s.reply), s.search, ReadChat(s.verdict))
  }

  function FallbackReplies(s: Script<GeminiReply>): Replies {
    Replies(ReadGemini(s.reply), s.search, ReadGemini(s.verdict))
  }

  /** The request that sends a system prompt and the history to a model:
      OpenRouter receives the messages, Gemini the messages formatted with
      the "User" / "Tool" / "Assistant" labels of this handler. */
  function Request(model: Backend, system: string, messages: seq<Message>): ServiceCall {
    var request := [Message(System, system)] + messages;
    match model
    case OpenRouterModel => OpenRouter(request)
    case GeminiModel => Gemini(FormatGemini(request, true))
  }

  /** The advice steps on one model, from `history`: ask, append the reply;
      when it asks for retrieval search, append the context as a tool
      message, ask for a verdict and append it. Any failure stops the pass
      where it is. */
  function Attempt(model: Backend, prompts: Prompts, history: seq<Message>, rs: Replies): Pass {
    var ask := Request(model, prompts.advice, history);
    match rs.reply
    case None => Pass(false, history, "", [ask])
    case Some(reply) =>
      var m1 := history + [Message(Assistant, reply)];
      if !AsksRetrieval(reply) then Pass(true, m1, reply, [ask])
      else
        var search := Search(RetrieveQuery(reply), DefaultK);
        match rs.search
        case Threw => Pass(false, m1, "", [ask, search])
        case Returned(docs) =>
          var m2 := m1 + [Message(Tool, ContextOf(docs))];
          var verdict := Request(model, prompts.verdict, m2);
          match rs.verdict
          case None => Pass(false, m2, "", [ask, search, verdict])
          case Some(v) => Pass(true, m2 + [Message(Assistant, v)], v, [ask, search, verdict])
  }

  /** The configuration stage. */
  function ConfigTurn(history: seq<Message>, req: AdviceRequest): Turn {
    Turn(Json(Stored), Some(history + [Message(User, ConfigMessage(req))]), [])
  }

  /** The advice stage: the query is appended, OpenRouter is tried, and on
      failure Gemini is tried once from the history as it then stands. */
  function AdviceStage(history: seq<Message>, userQuery: string, prompts: Prompts,
                       primary: Script<ChatReply>, fallback: Script<GeminiReply>): Turn
  {
    var p := Attempt(OpenRouterModel, prompts, history + [Message(User, userQuery)], PrimaryReplies(primary));
    Settle(p, Attempt(GeminiModel, prompts, p.messages, FallbackReplies(fallback)), AdviceFailed)
  }

  /** The whole request, from the loaded history. */
  function AdviceTurn(history: seq<Message>, isConfig: bool, req: AdviceRequest, prompts: Prompts,
                      primary: Script<ChatReply>, fallback: Script<GeminiReply>): Turn
  {
    if isConfig || |req.userQuery| == 0 then ConfigTurn(history, req)
    else AdviceStage(history, req.userQuery, prompts, primary, fallback)
  }

  /** The steps of `Attempt`, pushing onto the history as they go. */
  method RunAttempt(model: Backend, prompts: Prompts, history: seq<Message>, rs: Replies)
    returns (ok: bool, messages: seq<Message>, response: string, calls: seq<ServiceCall>)
    ensures Pass(ok, messages, response, calls) == Attempt(model, prompts, history, rs)
  {
    ok, messages, response, calls := false, history, "", [];
    calls := calls + [Request(model, prompts.advice, messages)];
    if rs.reply.None? {
      return;
    }
    var reply := rs.reply.value;
    messages := messages + [Message(Assistant, reply)];
    if !Contains(reply, Retrieve) {
      ok, response := true, reply;
      return;
    }
    var query := RetrieveQuery(reply);
    calls := calls + [Search(query, DefaultK)];
    if rs.search.Threw? {
      return;
    }
    var uniqueDocs := Distinct(Contents(rs.search.value));
    var context := Join(uniqueDocs, "\n");
    messages := messages + [Message(Tool, context)];
    calls := calls + [Request(model, prompts.verdict, messages)];
    if rs.verdict.None? {
      return;
    }
    response := rs.verdict.value;
    messages := messages + [Message(Assistant, response)];
    ok := true;
  }

  /** `handleRelationshipAdvice(req, res, isConfig)` after the history is
      loaded: the history is saved at most once, at the end. */
  method HandleRelationshipAdvice(history: seq<Message>, isConfig: bool, req: AdviceRequest, prompts: Prompts,
                                  primary: Script<ChatReply>, fallback: Script<GeminiReply>)
    returns (turn: Turn)
    ensures turn == AdviceTurn(history, isConfig, req, prompts, primary, fallback)
  {
    var messages := history;
    if isConfig || |req.userQuery| == 0 {
      messages := messages + [Message(User, ConfigMessage(req))];
      return Turn(Json(Stored), Some(messages), []);
    }
    messages := messages + [Message(User, req.userQuery)];
    var ok, response, calls;
    ok, messages, response, calls := RunAttempt(OpenRouterModel, prompts, messages, PrimaryReplies(primary));
    if !ok {
      var fallbackOk, fallbackCalls;
      fallbackOk, messages, response, fallbackCalls :=
        RunAttempt(GeminiModel, prompts, messages, FallbackReplies(fallback));
      calls := calls + fallbackCalls;
      if !fallbackOk {
        return Turn(ServerError(AdviceFailed), None, calls);
      }
    }
    return Turn(Json(response), Some(messages), calls);
  }

  // ---------------------------------------------------------------------------
  // Properties

  /** What a finished pass appends: the reply alone when it does not ask for
      retrieval, otherwise the reply, the tool message and the verdict, which
      is the returned message. */
  predicate Finished(ext: seq<Message>, response: string) {
    || (ext == [Message(Assistant, response)] && !AsksRetrieval(response))
    || (|ext| == 3 && ext[0].role == Assistant && AsksRetrieval(ext[0].content)
        && ext[1].role == Tool && ext[2] == Message(Assistant, response))
  }

  /** What a failed pass leaves behind: nothing, the reply, or the reply and
      the tool message. */
  predicate Abandoned(ext: seq<Message>) {
    |ext| <= 2
    && (|ext| >= 1 ==> ext[0].role == Assistant)
    && (|ext| == 2 ==> AsksRetrieval(ext[0].content) && ext[1].role == Tool)
  }

  /** The tool message holds the context built from the search hits. */
  predicate ToolFromSearch(ext: seq<Message>, rs: Replies) {
    |ext| >= 2 ==> rs.search.Returned? && ext[1].content == ContextOf(rs.search.value)
  }

  /** A pass only appends to the history; a finished pass appends the reply
      (and on retrieval the tool message and verdict) and a failed one keeps
      whatever it appended before the failure. Its first call asks the model
      with the advice prompt and the history it started from. */
  lemma AttemptAppends(model: Backend, prompts: Prompts, history: seq<Message>, rs: Replies)
    ensures var p := Attempt(model, prompts, history, rs);
      && |p.messages| >= |history| && p.messages[..|history|] == history
      && (p.ok ==> Finished(p.messages[|history|..], p.response))
      && (!p.ok ==> Abandoned(p.messages[|history|..]))
      && ToolFromSearch(p.messages[|history|..], rs)
      && 1 <= |p.calls| <= 3 && p.calls[0] == Request(model, prompts.advice, history)
  {
    var p := Attempt(model, prompts, history, rs);
    var ext := p.messages[|history|..];
    assert p.messages == history + ext;
  }

  /** The configuration stage appends exactly one user message, saves, and
      calls no model. */
  lemma ConfigStage(history: seq<Message>, isConfig: bool, req: AdviceRequest, prompts: Prompts,
                    primary: Script<ChatReply>, fallback: Script<GeminiReply>)
    requires isConfig || req.userQuery == ""
    ensures var t := AdviceTurn(history, isConfig, req, prompts, primary, fallback);
      && t.reply == Json(Stored)
      && t.saved == Some(history + [Message(User, ConfigMessage(req))])
      && t.calls == []
  {
  }

  /** What an answered turn saves: the history `m0` it started from, then
      what the finished primary pass `p` appended, or what the failed `p`
      left followed by what the finished fallback appended. */
  predicate SavedAfter(t: Turn, m0: seq<Message>, p: Pass) {
    t.reply.Json? ==>
      && t.saved.Some?
      && var s := t.saved.value;
      && |s| > |m0| && s[..|m0|] == m0
      && (p.ok ==> Finished(s[|m0|..], t.reply.message))
      && (!p.ok ==> |s| >= |p.messages| >= |m0| && s[..|p.messages|] == p.messages
                    && Abandoned(p.messages[|m0|..])
                    && Finished(s[|p.messages|..], t.reply.message))
  }

  /** An advice turn that succeeds saves the history extended by the user
      query and then either the primary pass's messages, or the failed
      primary pass's leftovers followed by the fallback's messages; a turn
      that fails saves nothing and answers 500. */
  lemma AdviceHistory(history: seq<Message>, userQuery: string, prompts: Prompts,
                      primary: Script<ChatReply>, fallback: Script<GeminiReply>)
    ensures var t := AdviceStage(history, userQuery, prompts, primary, fallback);
      var m0 := history + [Message(User, userQuery)];
      var p := Attempt(OpenRouterModel, prompts, m0, PrimaryReplies(primary));
      && (t.saved.Some? <==> t.reply.Json?)
      && (t.reply.ServerError? ==> t.reply.error == AdviceFailed)
      && SavedAfter(t, m0, p)
  {
    var m0 := history + [Message(User, userQuery)];
    var p := Attempt(OpenRouterModel, prompts, m0, PrimaryReplies(primary));
    var f := Attempt(GeminiModel, prompts, p.messages, FallbackReplies(fallback));
    AttemptAppends(OpenRouterModel, prompts, m0, PrimaryReplies(primary));
    AttemptAppends(GeminiModel, prompts, p.messages, FallbackReplies(fallback));
    SettleHistory(m0, p, f);
  }

  /** The history a settled turn saves, from what each pass appended. */
  lemma SettleHistory(m0: seq<Message>, p: Pass, f: Pass)
    requires |p.messages| >= |m0| && p.messages[..|m0|] == m0
    requires p.ok ==> Finished(p.messages[|m0|..], p.response)
    requires !p.ok ==> Abandoned(p.messages[|m0|..])
    requires |f.messages| >= |p.messages| && f.messages[..|p.messages|] == p.messages
    requires f.ok ==> Finished(f.messages[|p.messages|..], f.response)
    ensures var t := Settle(p, f, AdviceFailed);
      && (t.saved.Some? <==> t.reply.Json?)
      && (t.reply.ServerError? ==> t.reply.error == AdviceFailed)
      && SavedAfter(t, m0, p)
  {
    if !p.ok && f.ok {
      assert f.messages[..|m0|] == p.messages[..|m0|];
    }
  }

  /** The fallback is asked once, with the advice prompt and the history as
      the failed primary pass left it, user query, reply and tool message
      included; no model is asked when the primary pass finished, and the
      primary pass never asks Gemini. */
  lemma FallbackFromCurrentHistory(history: seq<Message>, userQuery: string, prompts: Prompts,
                                   primary: Script<ChatReply>, fallback: Script<GeminiReply>)
    ensures var t := AdviceStage(history, userQuery, prompts, primary, fallback);
      var p := Attempt(OpenRouterModel, prompts, history + [Message(User, userQuery)], PrimaryReplies(primary));
      && |t.calls| >= |p.calls| && t.calls[..|p.calls|] == p.calls
      && (forall i :: 0 <= i < |p.calls| ==> !p.calls[i].Gemini?)
      && (p.ok ==> t.calls == p.calls)
      && (!p.ok ==>
            && |t.calls| > |p.calls|
            && t.calls[|p.calls|] == Gemini(FormatGemini([Message(System, prompts.advice)] + p.messages, true)))
  {
    var m0 := history + [Message(User, userQuery)];
    var p := Attempt(OpenRouterModel, prompts, m0, PrimaryReplies(primary));
    var f := Attempt(GeminiModel, prompts, p.messages, FallbackReplies(fallback));
    PrimaryNeverGemini(prompts, m0, PrimaryReplies(primary));
    AttemptAppends(GeminiModel, prompts, p.messages, FallbackReplies(fallback));
    SettleCalls(p, f, AdviceFailed);
  }

  /** The primary pass only calls OpenRouter and the search. */
  lemma PrimaryNeverGemini(prompts: Prompts, history: seq<Message>, rs: Replies)
    ensures var p := Attempt(OpenRouterModel, prompts, history, rs);
      forall i :: 0 <= i < |p.calls| ==> !p.calls[i].Gemini?
  {
    var p := Attempt(OpenRouterModel, prompts, history, rs);
    var ask := Request(OpenRouterModel, prompts.advice, history);
    match rs.reply
    case None =>
      assert p.calls == [ask];
    case Some(reply) =>
      var m1 := history + [Message(Assistant, reply)];
      if !AsksRetrieval(reply) {
        assert p.calls == [ask];
      } else {
        var search := Search(RetrieveQuery(reply), DefaultK);
        match rs.search
        case Threw =>
          assert p.calls == [ask, search];
        case Returned(docs) =>
          var verdict := Request(OpenRouterModel, prompts.verdict, m1 + [Message(Tool, ContextOf(docs))]);
          assert p.calls == [ask, search, verdict];
      }
  }

  /** A primary pass that asks for retrieval and finishes appends, in order,
      the reply, the tool message with the distinct search contents and the
      verdict, and returns the verdict; its second call is the search for
      the reply's RETRIEVE query. */
  lemma RetrievalOrder(history: seq<Message>, userQuery: string, prompts: Prompts,
                       primary: Script<ChatReply>, fallback: Script<GeminiReply>)
    requires ReadChat(primary.reply).Some? && AsksRetrieval(ReadChat(primary.reply).value)
    requires primary.search.Returned? && ReadChat(primary.verdict).Some?
    ensures var reply := ReadChat(primary.reply).value;
      var verdict := ReadChat(primary.verdict).value;
      var t := AdviceStage(history, userQuery, prompts, primary, fallback);
      && t.reply == Json(verdict)
      && t.saved == Some(history + [Message(User, userQuery), Message(Assistant, reply),
                                    Message(Tool, ContextOf(primary.search.value)),
                                    Message(Assistant, verdict)])
      && |t.calls| == 3 && t.calls[1] == Search(RetrieveQuery(reply), DefaultK)
  {
    var reply := ReadChat(primary.reply).value;
    var v := ReadChat(primary.verdict).value;
    var m0 := history + [Message(User, userQuery)];
    var context := ContextOf(primary.search.value);
    StageRetrieves(m0, prompts, PrimaryReplies(primary), FallbackReplies(fallback));
    FourAppended(history, Message(User, userQuery), Message(Assistant, reply),
                 Message(Tool, context), Message(Assistant, v));
  }

  /** The advice stage over read replies, when the OpenRouter pass retrieves
      and completes: the fallback is never consulted. */
  lemma StageRetrieves(m0: seq<Message>, prompts: Prompts, rs: Replies, fb: Replies)
    requires rs.reply.Some? && AsksRetrieval(rs.reply.value)
    requires rs.search.Returned? && rs.verdict.Some?
    ensures var p := Attempt(OpenRouterModel, prompts, m0, rs);
      var t := Settle(p, Attempt(GeminiModel, prompts, p.messages, fb), AdviceFailed);
      && t.reply == Json(rs.verdict.value)
      && t.saved == Some(m0 + [Message(Assistant, rs.reply.value), Message(Tool, ContextOf(rs.search.value)),
                               Message(Assistant, rs.verdict.value)])
      && |t.calls| == 3 && t.calls[1] == Search(RetrieveQuery(rs.reply.value), DefaultK)
  {
    AttemptRetrieves(OpenRouterModel, prompts, m0, rs);
    var a, b, v := Message(Assistant, rs.reply.value), Message(Tool, ContextOf(rs.search.value)),
                   Message(Assistant, rs.verdict.value);
    assert m0 + [a, b] + [v] == m0 + [a, b, v];
  }

  /** A pass whose reply asks for retrieval, whose search returns and whose
      verdict arrives appends the reply, the tool message and the verdict,
      and calls the model, the search and the model again. */
  lemma AttemptRetrieves(model: Backend, prompts: Prompts, history: seq<Message>, rs: Replies)
    requires rs.reply.Some? && AsksRetrieval(rs.reply.value)
    requires rs.search.Returned? && rs.verdict.Some?
    ensures var reply := rs.reply.value;
      var m2 := history + [Message(Assistant, reply), Message(Tool, ContextOf(rs.search.value))];
      Attempt(model, prompts, history, rs)
        == Pass(true, m2 + [Message(Assistant, rs.verdict.value)], rs.verdict.value,
                [Request(model, prompts.advice, history), Search(RetrieveQuery(reply), DefaultK),
                 Request(model, prompts.verdict, m2)])
  {
    var reply := rs.reply.value;
    assert history + [Message(Assistant, reply)] + [Message(Tool, ContextOf(rs.search.value))]
        == history + [Message(Assistant, reply), Message(Tool, ContextOf(rs.search.value))];
  }

  lemma FourAppended<T>(h: seq<T>, a: T, b: T, c: T, d: T)
    ensures h + [a] + [b] + [c] + [d] == h + [a, b, c, d]
  {
  }
}
