/**
 * The question-answering entry point (`RAGFacade.ask` in
 * src/core/rag/RAGFacade.ts): embed the question, retrieve the top chunks,
 * assemble the grounded context and, if there is one, ask the language model.
 * The two remote collaborators are parameters that either answer or fail; the
 * trace of calls they receive is part of the result, so that what is and is
 * not invoked can be stated.
 */
module RagFacade {
  import opened Types
  import opened Answer
  import Retrieval
  import Config

  /** The response body: an answer with its citations, or a message. */
  datatype Body =
    | AnswerBody(answer: string, citations: seq<Citation>)
    | MessageBody(message: string)

  datatype Response = Response(status: nat, body: Body)

  /** A call made while answering one question. */
  datatype Call =
    | EmbedCall(text: string)
    | SearchCall(query: Vector, topK: nat)
    | LlmCall(question: string, context: string)

  /** The response together with the calls that produced it, in order. */
  datatype Outcome = Outcome(response: Response, calls: seq<Call>)

  const ServerErrorMessage: string := "Unexpected server error"

  /** What the catch block returns, whatever was thrown. */
  const InternalError: Response := Response(500, MessageBody(ServerErrorMessage))

  /**
   * `ask(question)`. `corpus` is the chunk list held by the Retrieval
   * instance; `embed` and `llm` are the collaborators; `score` and `fmt` are
   * the cosine similarity and the fixed-point score rendering.
   */
  function Ask(question: string, corpus: seq<Chunk>, embed: string -> Result<Vector>,
               llm: (string, string) -> Result<string>, score: Scorer, fmt: Formatter): (o: Outcome)
    ensures o.response.status in {200, 422, 500}
    ensures 1 <= |o.calls| <= 3 && o.calls[0] == EmbedCall(question)
    ensures |o.calls| >= 2 ==> embed(question).Ok? && o.calls[1] == SearchCall(embed(question).value, Config.TopK)
    ensures o.response.status == 500 ==> o.response == InternalError
    ensures o.response.status == 200 <==> o.response.body.AnswerBody?
    ensures o.response.status == 200 ==> |o.calls| == 3
    ensures embed(question).Err? <==> o.calls == [EmbedCall(question)]
  {
    match embed(question)
    case Err(_) => Outcome(InternalError, [EmbedCall(question)])
    case Ok(queryVector) =>
      var topChunks := TopChunks(corpus, queryVector, score);
      var calls := [EmbedCall(question), SearchCall(queryVector, Config.TopK)];
      match BuildAnswer(topChunks, fmt)
      case NotGrounded(message) => Outcome(Response(422, MessageBody(message)), calls)
      case Grounded(content, citations) =>
        var generate := calls + [LlmCall(question, content)];
        match llm(question, content)
        case Err(_) => Outcome(InternalError, generate)
        case Ok(text) => Outcome(Response(200, AnswerBody(text, citations)), generate)
  }

  /** The chunks handed to answer assembly for a given query embedding. */
  function TopChunks(corpus: seq<Chunk>, queryVector: Vector, score: Scorer): seq<Retrieved>
  {
    Retrieval.Ranked(corpus, queryVector, Config.TopK, score)
  }

  /** A failed embedding ends the request with the generic 500: no search, no model call. */
  lemma EmbedFailure(question: string, corpus: seq<Chunk>, embed: string -> Result<Vector>,
                     llm: (string, string) -> Result<string>, score: Scorer, fmt: Formatter)
    requires embed(question).Err?
    ensures Ask(question, corpus, embed, llm, score, fmt) == Outcome(InternalError, [EmbedCall(question)])
  {
  }

  /**
   * When assembly finds no grounding the answer is 422 with assembly's own
   * message, and the language model is never called.
   */
  lemma NotGroundedOutcome(question: string, corpus: seq<Chunk>, embed: string -> Result<Vector>,
                           llm: (string, string) -> Result<string>, score: Scorer, fmt: Formatter)
    requires embed(question).Ok?
    requires BuildAnswer(TopChunks(corpus, embed(question).value, score), fmt).NotGrounded?
    ensures var o := Ask(question, corpus, embed, llm, score, fmt);
      o.response == Response(422, MessageBody(BuildAnswer(TopChunks(corpus, embed(question).value, score), fmt).message)) &&
      forall c :: c in o.calls ==> !c.LlmCall?
  {
  }

  /**
   * When assembly succeeds the model sees the original question and exactly
   * the assembled context; on success the citations are assembly's own, and
   * on failure the generic 500 carries neither answer nor citations.
   */
  lemma GroundedOutcome(question: string, corpus: seq<Chunk>, embed: string -> Result<Vector>,
                        llm: (string, string) -> Result<string>, score: Scorer, fmt: Formatter)
    requires embed(question).Ok?
    requires BuildAnswer(TopChunks(corpus, embed(question).value, score), fmt).Grounded?
    ensures var assembled := BuildAnswer(TopChunks(corpus, embed(question).value, score), fmt);
      var o := Ask(question, corpus, embed, llm, score, fmt);
      o.calls == [EmbedCall(question), SearchCall(embed(question).value, Config.TopK),
                  LlmCall(question, assembled.content)] &&
      o.response == match llm(question, assembled.content)
        case Err(_) => InternalError
        case Ok(text) => Response(200, AnswerBody(text, assembled.citations))
  {
  }

  /**
   * Grounding guard: a 200 only ever follows a model call on assembled
   * context, and every citation returned names a retrieved chunk that met
   * the threshold.
   */
  lemma SuccessIsGrounded(question: string, corpus: seq<Chunk>, embed: string -> Result<Vector>,
                          llm: (string, string) -> Result<string>, score: Scorer, fmt: Formatter)
    requires Ask(question, corpus, embed, llm, score, fmt).response.status == 200
    ensures var o := Ask(question, corpus, embed, llm, score, fmt);
      embed(question).Ok? &&
      var top := TopChunks(corpus, embed(question).value, score);
      |o.calls| == 3 && o.calls[2] == LlmCall(question, BuildAnswer(top, fmt).content) &&
      forall c :: c in o.response.body.citations ==>
        exists r :: r in top && IsRelevant(r) && c == Citation(r.chunk.source, r.chunk.chunkIndex)
  {
    var top := TopChunks(corpus, embed(question).value, score);
    var rel := Relevant(top);
    var cs := BuildAnswer(top, fmt).citations;
    forall c | c in cs
      ensures exists r :: r in top && IsRelevant(r) && c == Citation(r.chunk.source, r.chunk.chunkIndex)
    {
      var k :| 0 <= k < |cs| && cs[k] == c;
      assert rel[k] in rel;
    }
  }

  /**
   * A non-empty corpus in which no chunk reaches the threshold for this query
   * always yields 422 with the "not available" message.
   */
  lemma NothingRelevantIsNotGrounded(question: string, corpus: seq<Chunk>, embed: string -> Result<Vector>,
                                     llm: (string, string) -> Result<string>, score: Scorer, fmt: Formatter)
    requires embed(question).Ok? && corpus != []
    requires forall c :: c in corpus ==> score(embed(question).value, c.embedding) < Config.SimThreshold
    ensures Ask(question, corpus, embed, llm, score, fmt).response == Response(422, MessageBody(NotAvailableMessage))
  {
    var q := embed(question).value;
    var top := TopChunks(corpus, q, score);
    Retrieval.RankedSpec(corpus, q, Config.TopK, score);
    assert |top| >= 1;
    forall i | 0 <= i < |top| ensures !IsRelevant(top[i]) {
      assert top[i] in top;
    }
  }

  /**
   * One chunk that scores at least the threshold against the question gives
   * a 200 with exactly one citation, naming that chunk.
   */
  lemma SingleRelevantChunk(question: string, chunk: Chunk, embed: string -> Result<Vector>,
                            llm: (string, string) -> Result<string>, score: Scorer, fmt: Formatter)
    requires embed(question).Ok?
    requires score(embed(question).value, chunk.embedding) >= Config.SimThreshold
    requires var x := Retrieved(chunk, score(embed(question).value, chunk.embedding));
      llm(question, BuildAnswer([x], fmt).content).Ok?
    ensures var o := Ask(question, [chunk], embed, llm, score, fmt);
      o.response.status == 200 &&
      o.response.body.citations == [Citation(chunk.source, chunk.chunkIndex)]
  {
    var q := embed(question).value;
    var x := Retrieved(chunk, score(q, chunk.embedding));
    assert Retrieval.ScoreAll([chunk], q, score) == [x];
    assert Retrieval.Ranked([chunk], q, Config.TopK, score) == [x];
    assert Relevant([x]) == [x] by { assert [x][1..] == []; }
  }
}
