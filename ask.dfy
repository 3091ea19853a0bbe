/**
 * The `/ask` handler of api/main.py (`ask_rag`, lines 56-112): strip the
 * question, refuse an empty one, ask the index for five documents, join their text
 * into the prompt, ask the completion service, and shape the response.
 *
 * The vector search and the completion service are parameters: `search`
 * is `faiss_index.similarity_search(question, k)` and `complete` is the
 * chat-completion call followed by `choices[0].message.content`, which
 * either yields the content or raises with a message.
 */
module Ask {
  import opened Text

  /** A retrieved document; only its text is used. */
  datatype Document = Document(pageContent: string)

  /** The outcome of the completion call inside the `try`. */
  datatype Completion = Completed(content: string) | Raised(message: string)

  /** The constant `system_info` block of every answer. */
  datatype SystemInfo = SystemInfo(scenario: string, standard: string, methodName: string)

  /** The JSON object the handler returns. */
  datatype Response =
    | Rejected(error: string)
    | Answered(question: string, answer: string, contextUsed: seq<string>, documentsRetrieved: nat, systemInfo: SystemInfo)

  const EmptyQuestionError := "Consulta vazia"
  const TopK: nat := 5
  const SnippetLength: nat := 250
  const Separator := "\n\n"
  const GenerationErrorPrefix := "\U{274C} Erro ao gerar resposta de consultoria: "
  const Info := SystemInfo("Consultoria em Qualidade Laboratorial", "ISO/IEC 17025:2017", "RAG (Retrieval-Augmented Generation)")

  /** A prompt template: fixed text before the context, between the context
      and the question, and after the question. */
  datatype Template = Template(head: string, middle: string, tail: string)

  /** The template of lines 71-87; line breaks are `\n` and accented
      letters `\U{...}` escapes. Each line of the f-string is written as a
      few literals of at most two dozen characters joined by `+`: the
      verifier's cost of every proof that unfolds the prompt grows steeply
      with the length of a single literal. */
  function PromptTemplate(): Template {
    Template(
      "\n"
      + "Voc\U{EA} \U{E9} um consultor " + "t\U{E9}cnico especializado " + "em qualidade " + "laboratorial que " + "utiliza a norma ISO/IEC " + "17025:2017.\n"
      + "Responda \U{E0} consulta " + "usando APENAS as " + "informa\U{E7}\U{F5}es do contexto " + "fornecido dos " + "requisitos da norma.\n"
      + "\n"
      + "Instru\U{E7}\U{F5}es:\n"
      + "- Seja preciso e " + "t\U{E9}cnico\n"
      + "- Cite os n\U{FA}meros das " + "se\U{E7}\U{F5}es quando relevante " + "(ex: \"conforme item " + "6.2.5\", \"se\U{E7}\U{E3}o 7.4.1\")\n"
      + "- Mantenha o foco na " + "aplica\U{E7}\U{E3}o pr\U{E1}tica para " + "laborat\U{F3}rios\n"
      + "- Se a informa\U{E7}\U{E3}o n\U{E3}o " + "estiver no contexto, " + "indique claramente\n"
      + "\n"
      + "Contexto da ISO/IEC " + "17025:2017:\n",
      "\n\nConsulta do cliente: ",
      "\n\nResposta t\U{E9}cnica:\n")
  }

  /** The texts of the documents, in retrieval order. */
  function Contents(docs: seq<Document>): (r: seq<string>)
    ensures |r| == |docs| && forall i :: 0 <= i < |docs| ==> r[i] == docs[i].pageContent
  {
    seq(|docs|, i requires 0 <= i < |docs| => docs[i].pageContent)
  }

  /** Line 68: the document texts joined by blank lines. */
  function Context(docs: seq<Document>): string {
    Join(Separator, Contents(docs))
  }

  /** A template filled with a context and a question, as the f-string does. */
  function Fill(t: Template, context: string, question: string): string {
    t.head + context + t.middle + question + t.tail
  }

  /** Lines 71-87: the prompt sent to the completion service. */
  function Prompt(context: string, question: string): string {
    Fill(PromptTemplate(), context, question)
  }

  /** Lines 90-99: the stripped content, or the error prefix and the message. */
  function AnswerText(c: Completion): string {
    match c
    case Completed(content) => Strip(content)
    case Raised(message) => GenerationErrorPrefix + message
  }

  /** Line 105: the first 250 characters of each document, in retrieval order. */
  function Snippets(docs: seq<Document>): seq<string> {
    seq(|docs|, i requires 0 <= i < |docs| => Prefix(docs[i].pageContent, SnippetLength))
  }

  /** The handler. */
  function AskRag(request: string, search: (string, nat) -> seq<Document>, complete: string -> Completion): (r: Response)
    ensures r.Rejected? <==> AllSpace(request)
    ensures r.Rejected? ==> r.error == EmptyQuestionError
    ensures r.Answered? ==>
      var docs := search(r.question, TopK);
      && r.question == Strip(request) && r.question != []
      && !IsSpace(r.question[0]) && !IsSpace(r.question[|r.question| - 1])
      && r.documentsRetrieved == |docs| == |r.contextUsed|
      && (forall i :: 0 <= i < |docs| ==>
            && r.contextUsed[i] <= docs[i].pageContent
            && |r.contextUsed[i]| == if |docs[i].pageContent| < SnippetLength then |docs[i].pageContent| else SnippetLength)
      && r.systemInfo == Info
    ensures r.Answered? ==>
      var outcome := complete(Prompt(Context(search(r.question, TopK)), r.question));
      && (outcome.Raised? ==> r.answer == GenerationErrorPrefix + outcome.message)
      && (outcome.Completed? ==> r.answer == Strip(outcome.content))
  {
    var question := Strip(request);
    if question == [] then Rejected(EmptyQuestionError)
    else
      var docs := search(question, TopK);
      var prompt := Prompt(Context(docs), question);
      Answered(question, AnswerText(complete(prompt)), Snippets(docs), |docs|, Info)
  }

  /** An empty question is answered without the search or the completion
      service: whatever they would do, the response is the same. */
  lemma RejectionCallsNothing(request: string,
                              search1: (string, nat) -> seq<Document>, complete1: string -> Completion,
                              search2: (string, nat) -> seq<Document>, complete2: string -> Completion)
    requires AllSpace(request)
    ensures AskRag(request, search1, complete1) == AskRag(request, search2, complete2) == Rejected(EmptyQuestionError)
  {
  }

  /** The search is consulted only for the stripped question and k = 5, and
      the completion service only for the prompt built from what it returned. */
  lemma ServicesConsultedOnce(request: string,
                              search1: (string, nat) -> seq<Document>, complete1: string -> Completion,
                              search2: (string, nat) -> seq<Document>, complete2: string -> Completion)
    requires var q := Strip(request);
      && search1(q, TopK) == search2(q, TopK)
      && complete1(Prompt(Context(search1(q, TopK)), q)) == complete2(Prompt(Context(search1(q, TopK)), q))
    ensures AskRag(request, search1, complete1) == AskRag(request, search2, complete2)
  {
  }

  /** A search that honours its `k` makes the handler report at most five documents. */
  lemma AtMostFiveDocuments(request: string, search: (string, nat) -> seq<Document>, complete: string -> Completion)
    requires forall q, k :: |search(q, k)| <= k
    ensures AskRag(request, search, complete).Answered? ==> AskRag(request, search, complete).documentsRetrieved <= TopK
  {
  }

  /** A filled template (the prompt of the handler among them) holds the
      text of every retrieved document at its place in the joined context;
      with `JoinSeparators` and `OffsetIncreasing`, the documents appear in
      retrieval order, separated by blank lines. */
  lemma PromptHoldsDocument(t: Template, docs: seq<Document>, question: string, i: nat)
    requires i < |docs|
    ensures var prompt := Fill(t, Context(docs), question);
      var at := |t.head| + Offset(|Separator|, Contents(docs), i);
      && at + |docs[i].pageContent| <= |prompt| && prompt[at..at + |docs[i].pageContent|] == docs[i].pageContent
      && Contains(prompt, docs[i].pageContent)
  {
    var context := Context(docs);
    var o := Offset(|Separator|, Contents(docs), i);
    var n := |docs[i].pageContent|;
    JoinPiece(Separator, Contents(docs), i);
    var hc := t.head + context;
    var hcmq := hc + t.middle + question;
    var at := |t.head| + o;
    SliceLeft(hcmq, t.tail, at, at + n);
    SliceLeft(hc + t.middle, question, at, at + n);
    SliceLeft(hc, t.middle, at, at + n);
    SliceRight(t.head, context, o, o + n);
    ContainsAt(Fill(t, context, question), docs[i].pageContent, at);
  }

  /** A filled template holds the question after the context and the middle text. */
  lemma PromptHoldsQuestion(t: Template, context: string, question: string)
    ensures var prompt := Fill(t, context, question);
      var asked := |t.head| + |context| + |t.middle|;
      && asked + |question| <= |prompt| && prompt[asked..asked + |question|] == question
      && Contains(prompt, question)
  {
    var hcm := t.head + context + t.middle;
    SliceLeft(hcm + question, t.tail, |hcm|, |hcm| + |question|);
    SliceRight(hcm, question, 0, |question|);
    assert question[0..|question|] == question;
    ContainsAt(Fill(t, context, question), question, |hcm|);
  }
}
