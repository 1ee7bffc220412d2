/** The stateless question-answering turn of `CompleteRAGPipeline`
    (ragPipeline.js): search, build the context and the source list from the
    hits, ask OpenRouter, and fall back once to Gemini when that call fails. */
module RagPipeline {
  import opened JsLib
  import opened Retrieval
  import opened Conversation

  /** The result of `run`: it threw (a failed search, or a failed fallback),
      or it returned `{answer, source_files}`. Both carry the remote calls
      made, in order. */
  datatype RunResult =
    | RunFailed(calls: seq<ServiceCall>)
    | Answered(answer: string, sourceFiles: seq<string>, calls: seq<ServiceCall>)

  const NoResponse: string := "No response."

  /** The system message: the fixed persona text, then "Context : " and the
      context, the whole trimmed. */
  function SystemContent(persona: string, context: string): string {
    Trim(persona + "Context : " + context)
  }

  /** The user message. */
  function QuestionContent(query: string): string {
    "Question: " + query + "\nAnswer:"
  }

  /** The two messages sent to either model. */
  function Prompt(persona: string, query: string, context: string): seq<Message> {
    [Message(System, SystemContent(persona, context)), Message(User, QuestionContent(query))]
  }

  /** `choices?.[0]?.message?.content?.trim() || "No response."`. */
  function PrimaryAnswer(r: ChatReply): string {
    var t :=
      match r.choices
      case None => ""
      case Some(cs) =>
        if |cs| == 0 then ""
        else
          match cs[0].message
          case None => ""
          case Some(m) =>
            match m.content
            case None => ""
            case Some(c) => Trim(c);
    if t == "" then NoResponse else t
  }

  /** `run(query, k)`, given what the search, OpenRouter and Gemini return.
      Search is called first, with the caller's k; the source list is fixed
      by the hits alone, whichever model answered. */
  function Run(query: string, k: nat, persona: string,
               searched: Call<seq<Hit>>, primary: Call<ChatReply>, fallback: Call<GeminiReply>): (r: RunResult)
    ensures 1 <= |r.calls| <= 3 && r.calls[0] == Search(query, k)
    ensures searched.Threw? ==> r == RunFailed([Search(query, k)])
    ensures r.Answered? ==> searched.Returned? && r.sourceFiles == Distinct(DocIds(searched.value))
  {
    match searched
    case Threw => RunFailed([Search(query, k)])
    case Returned(docs) =>
      var sourceFiles := Distinct(DocIds(docs));
      var messages := Prompt(persona, query, ContextOf(docs));
      match primary
      case Returned(reply) =>
        Answered(PrimaryAnswer(reply), sourceFiles, [Search(query, k), OpenRouter(messages)])
      case Threw =>
        var calls := [Search(query, k), OpenRouter(messages), Gemini(FormatGemini(messages, false))];
        match fallback
        case Threw => RunFailed(calls)
        case Returned(g) =>
          match StrictGeminiText(g)
          case None => RunFailed(calls)
          case Some(t) => Answered(t, sourceFiles, calls)
  }

  /** The primary reply names a content string. */
  predicate HasContent(r: ChatReply) {
    r.choices.Some? && |r.choices.value| > 0
    && r.choices.value[0].message.Some? && r.choices.value[0].message.value.content.Some?
  }

  /** A missing or blank primary reply becomes "No response."; otherwise the
      answer is the reply's trimmed content. The answer is never empty. */
  lemma PrimaryAnswerSpec(r: ChatReply)
    ensures PrimaryAnswer(r) != ""
    ensures HasContent(r) && Trim(r.choices.value[0].message.value.content.value) != "" ==>
      PrimaryAnswer(r) == Trim(r.choices.value[0].message.value.content.value)
    ensures !HasContent(r) || Trim(r.choices.value[0].message.value.content.value) == "" ==>
      PrimaryAnswer(r) == NoResponse
  {
  }

  /** When OpenRouter answers, there is no Gemini call and the answer follows
      the primary rules; when it fails, exactly one Gemini call is made, with
      the same two messages formatted as parts, and the answer is its trimmed
      text or the turn fails. */
  lemma AnswerRules(query: string, k: nat, persona: string, docs: seq<Hit>,
                    primary: Call<ChatReply>, fallback: Call<GeminiReply>)
    ensures var messages := Prompt(persona, query, ContextOf(docs));
      var r := Run(query, k, persona, Returned(docs), primary, fallback);
      && (primary.Returned? ==>
            r.Answered? && r.answer == PrimaryAnswer(primary.value)
            && r.calls == [Search(query, k), OpenRouter(messages)])
      && (primary.Threw? ==>
            && r.calls == [Search(query, k), OpenRouter(messages), Gemini(FormatGemini(messages, false))]
            && (r.Answered? <==> fallback.Returned? && StrictGeminiText(fallback.value).Some?)
            && (r.Answered? ==> r.answer == StrictGeminiText(fallback.value).value))
  {
  }

  /** The Gemini fallback sends two parts: "Assistant: <system text>" and
      "User: Question: <query>\nAnswer:". */
  lemma FallbackParts(persona: string, query: string, context: string)
    ensures FormatGemini(Prompt(persona, query, context), false)
         == ["Assistant: " + SystemContent(persona, context), "User: " + QuestionContent(query)]
  {
    var messages := Prompt(persona, query, context);
    var parts := FormatGemini(messages, false);
    assert messages[..1] == [messages[0]];
    assert messages[..1][..0] == [];
    assert FormatGemini(messages[..1], false) == [Label(System, false) + ": " + SystemContent(persona, context)];
    assert Label(System, false) == "Assistant";
    assert Label(User, false) == "User";
    assert "Assistant" + ": " == "Assistant: ";
    assert "User" + ": " == "User: ";
    assert messages[..|messages| - 1] == messages[..1];
    assert parts == FormatGemini(messages[..1], false) + [Label(User, false) + ": " + QuestionContent(query)];
  }

  /** The source list is the distinct docIds of the hits, each once, in order
      of first appearance. */
  lemma SourcesSpec(docs: seq<Hit>)
    ensures var s := Distinct(DocIds(docs));
      && NoDuplicates(s)
      && (forall i :: 0 <= i < |docs| ==> docs[i].docId in s)
      && (forall i :: 0 <= i < |s| ==> exists j :: 0 <= j < |docs| && docs[j].docId == s[i])
      && (forall i, j :: 0 <= i < j < |s| ==> FirstIndex(DocIds(docs), s[i]) < FirstIndex(DocIds(docs), s[j]))
  {
    var ids := DocIds(docs);
    var s := Distinct(ids);
    DistinctFirstAppearance(ids);
    forall i | 0 <= i < |s|
      ensures exists j :: 0 <= j < |docs| && docs[j].docId == s[i]
    {
      var j := FirstIndex(ids, s[i]);
      assert docs[j].docId == s[i];
    }
  }

  /** The system message carries the persona, "Context : " and the context
      unchanged when the persona opens and the context closes with a
      non-space; with no hits it ends in "Context :". */
  lemma SystemContentSpec(persona: string, context: string)
    requires persona != "" && !IsSpace(persona[0])
    ensures context != "" && !IsSpace(context[|context| - 1]) ==>
      SystemContent(persona, context) == persona + "Context : " + context
    ensures context == "" ==> SystemContent(persona, context) == persona + "Context :"
  {
    var s := persona + "Context : " + context;
    assert s[0] == persona[0];
    TrimStartKeeps(s);
    if context != "" && !IsSpace(context[|context| - 1]) {
      assert s[|s| - 1] == context[|context| - 1];
      TrimEndKeeps(s);
    }
    if context == "" {
      var a := persona + "Context :";
      assert s == a + " ";
      assert AllSpace(" ") by { assert IsSpace(' '); }
      TrimEndAppendSpace(a, " ");
      assert a[|a| - 1] == ':';
      TrimEndKeeps(a);
    }
  }
}
