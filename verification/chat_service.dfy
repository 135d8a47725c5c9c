/** `handle_chat(query, history, followup_answer) -> str`: rewrite the query
    (twice when the user is answering a follow-up), summarise a long history,
    try retrieval-augmented generation for document questions, fall back to
    the plain language model when that yields nothing usable, and offer to go
    deeper after a long document answer.

    The query rewriter, the document-question classifier, the RAG answerer,
    the fallback language model and the history summariser are opaque
    collaborators, passed in as functions. */
module ChatService {
  import opened Common
  import opened Text
  import Summarizer

  /** What `rag_answer` does: raise an exception, or return an answer. */
  datatype RagOutcome = Raised | Returned(answer: string)

  datatype Collaborators = Collaborators(
    rewriteQuery: (string, seq<string>) -> string,     // rewrite_query(query, history)
    isDocQuestion: string -> bool,                     // is_doc_question(query)
    ragAnswer: (string, seq<string>) -> RagOutcome,    // rag_answer(query, history)
    fallbackAnswer: string -> string,                  // llm.invoke on the fallback prompt for the query
    summarize: seq<string> -> string)                  // the language model call of summarize_chat

  /** One call of `handle_chat`: the final query, the answer chosen before
      decoration, whether it came from RAG, the returned text, and the calls
      made to the collaborators in order. */
  datatype Turn = Turn(rewritten: string, answer: string, usedRag: bool, reply: string, calls: seq<Call>)

  /** A RAG answer whose stripped text is shorter than this is discarded. */
  const MinAnswerLength: nat := 20

  /** The deeper-dive offer needs strictly more words than this. */
  const LongAnswerWords: nat := 60

  /** The offer appended after a long RAG answer; it starts with U+2753, the
      question-mark emoji. */
  const DeeperOffer: string := "\U{2753} Would you like me to go deeper into this?"

  /** Prefix of the history entry that carries the user's follow-up answer. */
  const AnsweredPrefix: string := "User answered: "

  /** Python truthiness of `followup_answer`: present and non-empty. */
  predicate Truthy(s: Option<string>) {
    s.Some? && s.value != ""
  }

  /** `history or []`. */
  function HistoryOrEmpty(history: Option<seq<string>>): seq<string> {
    match history
    case Some(h) => h
    case None => []
  }

  /** The answer `not answer or len(answer.strip()) < 20` lets through. */
  predicate Usable(answer: Option<string>) {
    answer.Some? && answer.value != "" && |Strip(answer.value)| >= MinAnswerLength
  }

  /** The condition for the deeper-dive offer. */
  predicate OffersMore(usedRag: bool, followupAnswer: Option<string>, answer: string) {
    usedRag && followupAnswer.None? && WordCount(answer) > LongAnswerWords
  }

  predicate IsRewriteCall(c: Call) { c.RewriteQuery? }
  predicate IsRagCall(c: Call) { c.RagAnswer? }
  predicate IsFallbackCall(c: Call) { c.FallbackAnswer? }

  /** The query after rewriting, and the rewrite calls made. */
  datatype Rewritten = Rewritten(query: string, calls: seq<Call>)

  /** The chosen answer, whether it came from RAG, and the classifier, RAG and
      fallback calls made to choose it. */
  datatype Answered = Answered(answer: string, usedRag: bool, calls: seq<Call>)

  /** Lines 22-28 of `handle_chat`: rewrite against the history and, when
      the user answered a follow-up, rewrite the rewrite once more against the
      history extended by that answer. */
  function RewriteStep(co: Collaborators, query: string, h: seq<string>, followupAnswer: Option<string>): (r: Rewritten)
    ensures |r.calls| == (if Truthy(followupAnswer) then 2 else 1)
    ensures r.calls[0] == RewriteQuery(query, h)
    ensures Truthy(followupAnswer) ==>
              var answered := h + [AnsweredPrefix + followupAnswer.value];
              r.calls[1] == RewriteQuery(co.rewriteQuery(query, h), answered)
              && r.query == co.rewriteQuery(co.rewriteQuery(query, h), answered)
    ensures !Truthy(followupAnswer) ==> r.query == co.rewriteQuery(query, h)
  {
    var first := co.rewriteQuery(query, h);
    if Truthy(followupAnswer) then
      var answered := h + [AnsweredPrefix + followupAnswer.value];
      Rewritten(co.rewriteQuery(first, answered), [RewriteQuery(query, h), RewriteQuery(first, answered)])
    else Rewritten(first, [RewriteQuery(query, h)])
  }

  /** Lines 34-60 of `handle_chat`: try RAG for a document question, and fall
      back to the language model unless RAG returned an answer of at least 20
      characters once stripped; a RAG exception counts as no answer. */
  function ChooseAnswer(co: Collaborators, q: string, summarized: seq<string>): (r: Answered)
    ensures r.usedRag <==>
              co.isDocQuestion(q) && co.ragAnswer(q, summarized).Returned?
              && |Strip(co.ragAnswer(q, summarized).answer)| >= MinAnswerLength
    ensures r.usedRag ==> r.answer == co.ragAnswer(q, summarized).answer
    ensures !r.usedRag ==> r.answer == co.fallbackAnswer(q)
    ensures r.calls ==
              [IsDocQuestion(q)]
              + (if co.isDocQuestion(q) then [RagAnswer(q, summarized)] else [])
              + (if r.usedRag then [] else [FallbackAnswer(q)])
  {
    var isDoc := co.isDocQuestion(q);
    var attempt: Option<string> :=
      if !isDoc then None
      else match co.ragAnswer(q, summarized)
        case Raised => None
        case Returned(a) => Some(a);
    var rag := if isDoc then [RagAnswer(q, summarized)] else [];
    if Usable(attempt) then Answered(attempt.value, true, [IsDocQuestion(q)] + rag)
    else Answered(co.fallbackAnswer(q), false, [IsDocQuestion(q)] + rag + [FallbackAnswer(q)])
  }

  /** Lines 63-70 of `handle_chat`: the answer, with the deeper-dive offer
      appended when RAG supplied a long answer and no follow-up answer was
      passed. */
  function Reply(answer: string, usedRag: bool, followupAnswer: Option<string>): (r: string)
    ensures r == answer || r == AppendNotice(answer, DeeperOffer)
  {
    if OffersMore(usedRag, followupAnswer, answer) then AppendNotice(answer, DeeperOffer) else answer
  }

  /** `handle_chat(query, history, followup_answer)`. */
  function HandleChat(co: Collaborators, query: string, history: Option<seq<string>>,
                      followupAnswer: Option<string>): (t: Turn)
    ensures t.reply == t.answer || t.reply == AppendNotice(t.answer, DeeperOffer)
    ensures t.usedRag ==> |Strip(t.answer)| >= MinAnswerLength
  {
    var h := HistoryOrEmpty(history);
    var rw := RewriteStep(co, query, h, followupAnswer);
    var summarized := Summarizer.SummarizeChat(co.summarize, h);
    var a := ChooseAnswer(co, rw.query, summarized.history);
    Turn(rw.query, a.answer, a.usedRag, Reply(a.answer, a.usedRag, followupAnswer), rw.calls + summarized.calls + a.calls)
  }

  // ---------------------------------------------------------------------------
  // Properties

  /** A missing history behaves exactly as an empty one. */
  lemma NoHistoryIsEmptyHistory(co: Collaborators, query: string, followupAnswer: Option<string>)
    ensures HandleChat(co, query, None, followupAnswer) == HandleChat(co, query, Some([]), followupAnswer)
  {
  }

  /** How the calls of one turn split into the three stages. */
  lemma TurnCalls(co: Collaborators, query: string, history: Option<seq<string>>,
                  followupAnswer: Option<string>, p: Call -> bool)
    ensures var t := HandleChat(co, query, history, followupAnswer);
            var h := HistoryOrEmpty(history);
            var rw := RewriteStep(co, query, h, followupAnswer);
            var summarized := Summarizer.SummarizeChat(co.summarize, h);
            CountCalls(t.calls, p) ==
              CountCalls(rw.calls, p) + CountCalls(summarized.calls, p)
              + CountCalls(ChooseAnswer(co, t.rewritten, summarized.history).calls, p)
  {
    var h := HistoryOrEmpty(history);
    var rw := RewriteStep(co, query, h, followupAnswer);
    var summarized := Summarizer.SummarizeChat(co.summarize, h);
    var a := ChooseAnswer(co, rw.query, summarized.history);
    CountCallsAppend(rw.calls + summarized.calls, a.calls, p);
    CountCallsAppend(rw.calls, summarized.calls, p);
  }

  /** The query is rewritten a second time exactly when `followup_answer` is
      truthy; the second rewrite takes the first rewrite and the history
      extended by exactly `"User answered: " + followup_answer`. */
  lemma SecondRewriteIffFollowup(co: Collaborators, query: string, history: Option<seq<string>>,
                                 followupAnswer: Option<string>)
    ensures var t := HandleChat(co, query, history, followupAnswer);
            var h := HistoryOrEmpty(history);
            var first := co.rewriteQuery(query, h);
            && t.calls[0] == RewriteQuery(query, h)
            && (CountCalls(t.calls, IsRewriteCall) == 2 <==> Truthy(followupAnswer))
            && (CountCalls(t.calls, IsRewriteCall) == 1 <==> !Truthy(followupAnswer))
            && (Truthy(followupAnswer) ==>
                  && t.calls[1] == RewriteQuery(first, h + ["User answered: " + followupAnswer.value])
                  && t.rewritten == co.rewriteQuery(first, h + ["User answered: " + followupAnswer.value]))
            && (!Truthy(followupAnswer) ==> t.rewritten == first)
  {
    var t := HandleChat(co, query, history, followupAnswer);
    var h := HistoryOrEmpty(history);
    var rw := RewriteStep(co, query, h, followupAnswer);
    var summarized := Summarizer.SummarizeChat(co.summarize, h);
    TurnCalls(co, query, history, followupAnswer, IsRewriteCall);
    assert CountCalls(rw.calls, IsRewriteCall) == |rw.calls| by {
      if |rw.calls| == 2 { assert rw.calls[1..][1..] == []; } else { assert rw.calls[1..] == []; }
    }
    assert CountCalls(summarized.calls, IsRewriteCall) == 0;
    assert CountCalls(ChooseAnswer(co, t.rewritten, summarized.history).calls, IsRewriteCall) == 0;
    assert t.calls[..|rw.calls|] == rw.calls;
  }

  /** RAG is consulted exactly when the rewritten query is a document
      question, once, on the rewritten query and the summarised history. */
  lemma RagIffDocQuestion(co: Collaborators, query: string, history: Option<seq<string>>,
                          followupAnswer: Option<string>)
    ensures var t := HandleChat(co, query, history, followupAnswer);
            var summarized := Summarizer.SummarizeChat(co.summarize, HistoryOrEmpty(history)).history;
            && (CountCalls(t.calls, IsRagCall) == 1 <==> co.isDocQuestion(t.rewritten))
            && (CountCalls(t.calls, IsRagCall) == 0 <==> !co.isDocQuestion(t.rewritten))
            && (co.isDocQuestion(t.rewritten) ==> RagAnswer(t.rewritten, summarized) in t.calls)
  {
    var t := HandleChat(co, query, history, followupAnswer);
    var h := HistoryOrEmpty(history);
    var rw := RewriteStep(co, query, h, followupAnswer);
    var summarized := Summarizer.SummarizeChat(co.summarize, h);
    var a := ChooseAnswer(co, t.rewritten, summarized.history);
    TurnCalls(co, query, history, followupAnswer, IsRagCall);
    assert CountCalls(rw.calls, IsRagCall) == 0;
    assert CountCalls(summarized.calls, IsRagCall) == 0;
    var rag := if co.isDocQuestion(t.rewritten) then [RagAnswer(t.rewritten, summarized.history)] else [];
    var fallback := if a.usedRag then [] else [FallbackAnswer(t.rewritten)];
    CountCallsAppend([IsDocQuestion(t.rewritten)] + rag, fallback, IsRagCall);
    CountCallsAppend([IsDocQuestion(t.rewritten)], rag, IsRagCall);
    assert rag == [] || rag[1..] == [];
    assert fallback == [] || fallback[1..] == [];
    assert a.calls[1..][..|rag|] == rag;
  }

  /** The RAG answer is kept exactly when RAG returned one whose stripped text
      has at least 20 characters; otherwise, also when RAG raised, the
      fallback language model answers the rewritten query and `used_rag` is
      false. The fallback model is called exactly when it answers. */
  lemma AnswerSelection(co: Collaborators, query: string, history: Option<seq<string>>,
                        followupAnswer: Option<string>)
    ensures var t := HandleChat(co, query, history, followupAnswer);
            var q := t.rewritten;
            var summarized := Summarizer.SummarizeChat(co.summarize, HistoryOrEmpty(history)).history;
            && (t.usedRag <==>
                  co.isDocQuestion(q) && co.ragAnswer(q, summarized).Returned?
                  && |Strip(co.ragAnswer(q, summarized).answer)| >= MinAnswerLength)
            && (t.usedRag ==> t.answer == co.ragAnswer(q, summarized).answer)
            && (!t.usedRag ==> t.answer == co.fallbackAnswer(q))
            && (co.isDocQuestion(q) && co.ragAnswer(q, summarized).Raised? ==> !t.usedRag)
            && (CountCalls(t.calls, IsFallbackCall) == 1 <==> !t.usedRag)
            && (CountCalls(t.calls, IsFallbackCall) == 0 <==> t.usedRag)
  {
    var t := HandleChat(co, query, history, followupAnswer);
    var h := HistoryOrEmpty(history);
    var rw := RewriteStep(co, query, h, followupAnswer);
    var summarized := Summarizer.SummarizeChat(co.summarize, h);
    var a := ChooseAnswer(co, t.rewritten, summarized.history);
    TurnCalls(co, query, history, followupAnswer, IsFallbackCall);
    assert CountCalls(rw.calls, IsFallbackCall) == 0;
    assert CountCalls(summarized.calls, IsFallbackCall) == 0;
    var front := [IsDocQuestion(t.rewritten)] + (if co.isDocQuestion(t.rewritten) then [RagAnswer(t.rewritten, summarized.history)] else []);
    var fallback := if a.usedRag then [] else [FallbackAnswer(t.rewritten)];
    CountCallsAppend(front, fallback, IsFallbackCall);
    assert CountCalls(front, IsFallbackCall) == 0;
    assert fallback == [] || fallback[1..] == [];
  }

  /** The deeper-dive offer is appended exactly when RAG supplied the answer,
      no follow-up answer was passed (`None`, not merely empty) and the answer
      has more than 60 words; otherwise the reply is exactly the answer. */
  lemma OfferIff(co: Collaborators, query: string, history: Option<seq<string>>,
                 followupAnswer: Option<string>)
    ensures var t := HandleChat(co, query, history, followupAnswer);
            && (t.reply == AppendNotice(t.answer, DeeperOffer) <==>
                  t.usedRag && followupAnswer.None? && WordCount(t.answer) > LongAnswerWords)
            && (t.reply == t.answer <==>
                  !(t.usedRag && followupAnswer.None? && WordCount(t.answer) > LongAnswerWords))
  {
    var t := HandleChat(co, query, history, followupAnswer);
    assert |AppendNotice(t.answer, DeeperOffer)| > |t.answer|;
  }

  /** An empty follow-up answer is not truthy, so it causes no second
      rewrite, yet it is not `None`, so it still suppresses the offer. */
  lemma EmptyFollowupAnswer(co: Collaborators, query: string, history: Option<seq<string>>)
    ensures var t := HandleChat(co, query, history, Some(""));
            && CountCalls(t.calls, IsRewriteCall) == 1
            && t.reply == t.answer
  {
    SecondRewriteIffFollowup(co, query, history, Some(""));
  }

  /** A question the classifier does not route to the documents is answered
      by the fallback model, never offered a deeper dive, and RAG is never
      consulted for it. */
  lemma NonDocumentQuestion(co: Collaborators, query: string, history: Option<seq<string>>,
                            followupAnswer: Option<string>)
    requires !co.isDocQuestion(HandleChat(co, query, history, followupAnswer).rewritten)
    ensures var t := HandleChat(co, query, history, followupAnswer);
            && !t.usedRag
            && t.answer == co.fallbackAnswer(t.rewritten)
            && t.reply == t.answer
            && CountCalls(t.calls, IsRagCall) == 0
  {
    RagIffDocQuestion(co, query, history, followupAnswer);
  }
}
