/** The `chat` edge function: pick the last user message, retrieve related sections
    of the building code through the embedding provider and the similarity search,
    put them after a fixed preamble in a system message, and forward the
    conversation to the completion provider.

    The two providers and the search are parameters: `embedQuery` gives the
    question's embedding or an error, `search` the rows of `search_similar_chunks`
    or an error (a returned error and a thrown one are handled alike), and
    `complete` what the completion endpoint answers. */
module Chat {
  import opened Wrappers
  import opened JsString
  import opened Decimal
  import ChunkStore

  /** One message of the conversation as the client sends it. */
  datatype Message = Message(role: string, content: string)

  /** A row returned by the similarity search: its text and its similarity already
      rendered as a percentage with one decimal. */
  datatype Hit = Hit(content: string, similarityPercent: string)

  /** The arguments of the `search_similar_chunks` call. */
  datatype SearchRequest = SearchRequest(
    queryEmbedding: ChunkStore.Embedding,
    matchThreshold: real,
    matchCount: nat,
    docName: string)

  /** The JSON body posted to the completion endpoint. */
  datatype CompletionRequest = CompletionRequest(model: string, messages: seq<Message>, stream: bool)

  /** What the completion endpoint does: answers with an ok status and a body,
      answers with a non-ok status and an error text, or fails with an exception. */
  datatype Upstream =
    | UpstreamOk(body: string)
    | UpstreamNotOk(status: nat, text: string)
    | UpstreamThrew(message: string)

  /** The response of the function: the relayed event stream, or a JSON error. */
  datatype ChatResponse =
    | EventStream(body: string)
    | ErrorJson(status: nat, error: string, details: Option<string>)

  /** The `messages` field of the parsed request body: an array of messages, or
      anything else (absent, `null`, a string, an object), on which calling
      `filter` throws a `TypeError` with the runtime's message. */
  datatype MessagesField =
    | Messages(messages: seq<Message>)
    | NotAnArray(typeError: string)

  datatype Services = Services(
    openRouterApiKey: Option<string>,
    openaiApiKey: Option<string>,
    embedQuery: string -> Result<ChunkStore.Embedding>,
    search: SearchRequest -> Result<seq<Hit>>,
    complete: CompletionRequest -> Upstream)

  /** The retrieval step: the text embedded, the search issued and the context
      obtained. */
  datatype Retrieval = Retrieval(query: Option<string>, search: Option<SearchRequest>, context: string)

  /** One request to the function: what it retrieved, what it sent upstream and what
      it answered. */
  datatype ChatTurn = ChatTurn(retrieval: Option<Retrieval>, sent: Option<CompletionRequest>, response: ChatResponse)

  const UserRole: string := "user"
  const SystemRole: string := "system"
  const MatchThreshold: real := 0.7
  const MatchCount: nat := 5
  const SearchedDocument: string := "sp-60-13330-2020"
  const CompletionModel: string := "deepseek/deepseek-chat-v3.1:free"
  const MissingOpenRouterKey: string := "OPENROUTER_API_KEY is not configured"
  const MissingOpenAiKey: string := "OPENAI_API_KEY is not configured"
  const UpstreamError: string := "OpenRouter API error"
  const EntrySeparator: string := "\n\n"

  /** The line that introduces the retrieved sections. */
  const ContextHeader: string := "\n\nРелевантные разделы из СП 60.13330.2020:\n\n"

  /** The fixed instructions that open every system message. */
  const Preamble: string := "Вы - SP-Assistant, помощник по строительным нормам и правилам СП 60.13330.2020 \"Отопление, вентиляция и кондиционирование воздуха\".\n\nОтвечайте четко, по делу и профессионально, основываясь на предоставленном контексте из документа.\n\nЕсли в контексте есть релевантная информация - используйте её для ответа и ссылайтесь на конкретные разделы.\nЕсли контекста недостаточно - честно скажите об этом."

  /** The user-role messages, in order. */
  function UserMessages(messages: seq<Message>): (r: seq<Message>)
    ensures forall m :: m in r <==> m in messages && m.role == UserRole
    decreases |messages|
  {
    if |messages| == 0 then []
    else
      var init := UserMessages(messages[..|messages| - 1]);
      var last := messages[|messages| - 1];
      assert messages == messages[..|messages| - 1] + [last];
      if last.role == UserRole then init + [last] else init
  }

  /** `i` is the position of the last user-role message. */
  predicate IsLastUser(messages: seq<Message>, i: int)
  {
    && 0 <= i < |messages|
    && messages[i].role == UserRole
    && forall j :: i < j < |messages| ==> messages[j].role != UserRole
  }

  /** `messages.filter(m => m.role === 'user').pop()`: the last message whose role
      is `user`, if there is one. */
  function LastUserMessage(messages: seq<Message>): (r: Option<Message>)
    ensures r.None? <==> forall i :: 0 <= i < |messages| ==> messages[i].role != UserRole
    ensures r.Some? ==> exists i :: IsLastUser(messages, i) && messages[i] == r.value
  {
    var users := UserMessages(messages);
    if |users| == 0 then None
    else
      LastOfUserMessages(messages);
      Some(users[|users| - 1])
  }

  /** The last element of the filtered list is the last user-role message. */
  lemma {:induction false} LastOfUserMessages(messages: seq<Message>)
    requires UserMessages(messages) != []
    ensures exists i :: IsLastUser(messages, i) && messages[i] == UserMessages(messages)[|UserMessages(messages)| - 1]
    decreases |messages|
  {
    var i: int;
    var init := messages[..|messages| - 1];
    var last := messages[|messages| - 1];
    var users := UserMessages(messages);
    if last.role == UserRole {
      i := |messages| - 1;
      assert users == UserMessages(init) + [last];
      assert messages[i] == users[|users| - 1];
    } else {
      var before := UserMessages(init);
      assert users == before;
      LastOfUserMessages(init);
      var k :| IsLastUser(init, k) && init[k] == before[|before| - 1];
      i := k;
      assert messages[i] == init[k];
      forall j | i < j < |messages|
        ensures messages[j].role != UserRole
      {
        if j < |init| {
          assert messages[j] == init[j];
        }
      }
    }
    assert IsLastUser(messages, i);
  }

  /** The entry for the result at position `i` (0-based): its number `i + 1` in
      brackets, its text, and its relevance. */
  function Entry(i: nat, hit: Hit): string
  {
    "[" + ToDecimal(i + 1) + "] " + hit.content + "\n(релевантность: " + hit.similarityPercent + "%)"
  }

  /** The entries of the results, numbered in result order. */
  function Entries(hits: seq<Hit>): (r: seq<string>)
    ensures |r| == |hits|
    ensures forall i :: 0 <= i < |hits| ==> r[i] == Entry(i, hits[i])
  {
    seq(|hits|, i requires 0 <= i < |hits| => Entry(i, hits[i]))
  }

  /** The context block: empty without results, otherwise the header followed by
      the numbered entries separated by blank lines. */
  function RenderContext(hits: seq<Hit>): (r: string)
    ensures r == "" <==> hits == []
    ensures hits != [] ==> |ContextHeader| <= |r| && r[..|ContextHeader|] == ContextHeader
  {
    if |hits| == 0 then "" else ContextHeader + Join(Entries(hits), EntrySeparator)
  }

  /** One more search result appends exactly one entry, numbered after the others,
      at the end of the context. */
  lemma RenderContextSnoc(hits: seq<Hit>, hit: Hit)
    requires hits != []
    ensures RenderContext(hits + [hit]) == RenderContext(hits) + EntrySeparator + Entry(|hits|, hit)
  {
    var all := Entries(hits + [hit]);
    assert all == Entries(hits) + [Entry(|hits|, hit)];
    JoinAppend(Entries(hits), [Entry(|hits|, hit)], EntrySeparator);
  }

  /** A single result gives the header and entry number 1. */
  lemma RenderContextSingle(hit: Hit)
    ensures RenderContext([hit]) == ContextHeader + "[1] " + hit.content + "\n(релевантность: " + hit.similarityPercent + "%)"
  {
    assert Entries([hit]) == [Entry(0, hit)];
    assert ToDecimal(1) == "1";
  }

  /** Every result's text appears in the context. */
  lemma ContextContainsEveryHit(hits: seq<Hit>, i: nat)
    requires i < |hits|
    ensures IsSubstring(hits[i].content, RenderContext(hits))
  {
    var es := Entries(hits);
    JoinHasEveryPart(es, EntrySeparator, i);
    var e := es[i];
    var pre := "[" + ToDecimal(i + 1) + "] ";
    assert e == pre + hits[i].content + ("\n(релевантность: " + hits[i].similarityPercent + "%)");
    assert e[|pre|..|pre| + |hits[i].content|] == hits[i].content;
    assert IsSubstring(hits[i].content, e);
    var joined := Join(es, EntrySeparator);
    SuffixSubstring(ContextHeader, joined);
    SubstringTransitive(e, joined, ContextHeader + joined);
    SubstringTransitive(hits[i].content, e, ContextHeader + joined);
  }

  /** Each part of a join appears in it. */
  lemma {:induction false} JoinHasEveryPart(parts: seq<string>, sep: string, i: nat)
    requires i < |parts|
    ensures IsSubstring(parts[i], Join(parts, sep))
    decreases |parts|
  {
    var j := Join(parts, sep);
    if |parts| == 1 {
      assert j[0..|j|] == j;
    } else {
      var rest := Join(parts[1..], sep);
      assert j == parts[0] + sep + rest;
      if i == 0 {
        assert j[0..|parts[0]|] == parts[0];
      } else {
        JoinHasEveryPart(parts[1..], sep, i - 1);
        assert j == (parts[0] + sep) + rest;
        SuffixSubstring(parts[0] + sep, rest);
        SubstringTransitive(parts[i], rest, j);
      }
    }
  }

  lemma SuffixSubstring(a: string, b: string)
    ensures IsSubstring(b, a + b)
  {
    assert (a + b)[|a|..|a| + |b|] == b;
  }

  /** The search issued for a question with embedding `e`. */
  function SearchFor(e: ChunkStore.Embedding): SearchRequest
  {
    SearchRequest(e, MatchThreshold, MatchCount, SearchedDocument)
  }

  /** Retrieval: with no user message nothing is embedded or searched; a failed
      embedding or search leaves the context empty; otherwise the context renders
      the search results. */
  function Retrieve(messages: seq<Message>, services: Services): (r: Retrieval)
    ensures r.query.None? <==> LastUserMessage(messages).None?
    ensures r.query.Some? ==> r.query.value == LastUserMessage(messages).value.content
    ensures r.search.Some? ==>
      && r.query.Some?
      && services.embedQuery(r.query.value) == Success(r.search.value.queryEmbedding)
      && r.search.value.matchThreshold == 0.7
      && r.search.value.matchCount == 5
      && r.search.value.docName == "sp-60-13330-2020"
    ensures r.context != "" ==>
      && r.search.Some?
      && exists hits :: services.search(r.search.value) == Success(hits) && hits != [] && r.context == RenderContext(hits)
    ensures r.search.Some? && services.search(r.search.value).Success? ==>
      r.context == RenderContext(services.search(r.search.value).value)
    ensures r.query.Some? && services.embedQuery(r.query.value).Success? ==>
      r.search == Some(SearchFor(services.embedQuery(r.query.value).value))
    ensures r.search.Some? && services.search(r.search.value).Failure? ==> r.context == ""
  {
    match LastUserMessage(messages)
    case None => Retrieval(None, None, "")
    case Some(m) =>
      match services.embedQuery(m.content)
      case Failure(_) => Retrieval(Some(m.content), None, "")
      case Success(e) =>
        var request := SearchFor(e);
        match services.search(request)
        case Failure(_) => Retrieval(Some(m.content), Some(request), "")
        case Success(hits) => Retrieval(Some(m.content), Some(request), RenderContext(hits))
  }

  /** The system message's text: the preamble, then the context. */
  function SystemContent(context: string): (r: string)
    ensures |r| == |Preamble| + |context|
    ensures r[..|Preamble|] == Preamble && r[|Preamble|..] == context
  {
    Preamble + context
  }

  /** The request posted to the completion endpoint: the system message, then the
      caller's messages untouched, streamed. */
  function Outbound(messages: seq<Message>, context: string): (r: CompletionRequest)
    ensures |r.messages| == |messages| + 1
    ensures r.messages[0] == Message(SystemRole, SystemContent(context))
    ensures r.messages[1..] == messages
    ensures r.model == CompletionModel && r.stream
  {
    CompletionRequest(CompletionModel, [Message(SystemRole, SystemContent(context))] + messages, true)
  }

  /** How the upstream answer becomes the function's response. */
  function Relay(upstream: Upstream): (r: ChatResponse)
    ensures upstream.UpstreamOk? <==> r.EventStream?
    ensures upstream.UpstreamOk? ==> r.body == upstream.body
    ensures upstream.UpstreamNotOk? ==> r == ErrorJson(upstream.status, UpstreamError, Some(upstream.text))
    ensures upstream.UpstreamThrew? ==> r == ErrorJson(500, upstream.message, None)
    ensures r.ErrorJson? ==>
      && (r.details.Some? <==> upstream.UpstreamNotOk?)
      && (upstream.UpstreamNotOk? ==> r.status == upstream.status && r.error == UpstreamError)
  {
    match upstream
    case UpstreamOk(body) => EventStream(body)
    case UpstreamNotOk(status, text) => ErrorJson(status, UpstreamError, Some(text))
    case UpstreamThrew(message) => ErrorJson(500, message, None)
  }

  /** The handler. The keys are checked first, the OpenRouter key before the OpenAI
      one, and a missing key answers 500 before anything is embedded, searched or
      sent. A `messages` field that is not an array is only noticed after the key
      checks, when the last user message is looked up, and answers 500 with the
      runtime's error text. */
  function Handle(body: MessagesField, services: Services): (t: ChatTurn)
    ensures !Present(services.openRouterApiKey) ==>
      t == ChatTurn(None, None, ErrorJson(500, MissingOpenRouterKey, None))
    ensures Present(services.openRouterApiKey) && !Present(services.openaiApiKey) ==>
      t == ChatTurn(None, None, ErrorJson(500, MissingOpenAiKey, None))
    ensures Present(services.openRouterApiKey) && Present(services.openaiApiKey) && body.NotAnArray? ==>
      t == ChatTurn(None, None, ErrorJson(500, body.typeError, None))
    ensures t.sent.Some? <==> Present(services.openRouterApiKey) && Present(services.openaiApiKey) && body.Messages?
    ensures t.sent.Some? ==>
      && t.retrieval == Some(Retrieve(body.messages, services))
      && t.sent.value == Outbound(body.messages, t.retrieval.value.context)
      && t.response == Relay(services.complete(t.sent.value))
    ensures t.sent.None? ==> t.retrieval.None? && t.response.ErrorJson? && t.response.status == 500
  {
    if !Present(services.openRouterApiKey) then
      ChatTurn(None, None, ErrorJson(500, MissingOpenRouterKey, None))
    else if !Present(services.openaiApiKey) then
      ChatTurn(None, None, ErrorJson(500, MissingOpenAiKey, None))
    else
      match body
      case NotAnArray(typeError) => ChatTurn(None, None, ErrorJson(500, typeError, None))
      case Messages(messages) =>
        var retrieval := Retrieve(messages, services);
        var request := Outbound(messages, retrieval.context);
        ChatTurn(Some(retrieval), Some(request), Relay(services.complete(request)))
  }

  /** Without a user message, or when retrieval fails, the system message is exactly
      the preamble. */
  lemma NoContextMeansPreamble(messages: seq<Message>, services: Services)
    requires Present(services.openRouterApiKey) && Present(services.openaiApiKey)
    requires || LastUserMessage(messages).None?
             || services.embedQuery(LastUserMessage(messages).value.content).Failure?
             || services.search(SearchFor(services.embedQuery(LastUserMessage(messages).value.content).value)).Failure?
    ensures Handle(Messages(messages), services).sent.value.messages[0] == Message(SystemRole, Preamble)
  {
    assert Preamble + "" == Preamble;
  }

  /** The grounded path: when the last user question embeds and the search returns
      results, the system message is the preamble followed by the rendered results,
      so every result's text reaches the completion request, ahead of the caller's
      messages. */
  lemma GroundedAnswer(messages: seq<Message>, services: Services, hits: seq<Hit>)
    requires Present(services.openRouterApiKey) && Present(services.openaiApiKey)
    requires LastUserMessage(messages).Some?
    requires services.embedQuery(LastUserMessage(messages).value.content).Success?
    requires services.search(SearchFor(services.embedQuery(LastUserMessage(messages).value.content).value)) == Success(hits)
    requires hits != []
    ensures var sent := Handle(Messages(messages), services).sent.value;
            && sent.messages[0] == Message(SystemRole, Preamble + RenderContext(hits))
            && sent.messages[1..] == messages
            && forall i :: 0 <= i < |hits| ==> IsSubstring(hits[i].content, sent.messages[0].content)
  {
    var content := Preamble + RenderContext(hits);
    assert Handle(Messages(messages), services).sent.value.messages[0].content == content;
    forall i | 0 <= i < |hits|
      ensures IsSubstring(hits[i].content, content)
    {
      ContextContainsEveryHit(hits, i);
      SuffixSubstring(Preamble, RenderContext(hits));
      SubstringTransitive(hits[i].content, RenderContext(hits), content);
    }
  }
}
