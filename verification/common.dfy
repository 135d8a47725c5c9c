/** Shared vocabulary of the model: an optional value and the record of the
    calls made to the opaque collaborators (language model, cross-encoder). */
module Common {

  /** Python's `None` versus a present value. */
  datatype Option<+T> = None | Some(value: T)

  /** One call to an opaque collaborator. Every operation that consults a
      collaborator returns the calls it made, in order, so that a contract can
      say when a collaborator is consulted and with which arguments. */
  datatype Call =
    | RewriteQuery(query: string, context: seq<string>)  // rewrite_query
    | IsDocQuestion(query: string)                       // is_doc_question
    | RagAnswer(query: string, history: seq<string>)     // rag_answer
    | FallbackAnswer(question: string)                   // llm.invoke with the fallback prompt
    | SummarizeHistory(history: seq<string>)             // llm.invoke in summarize_chat
    | SummarizeLines(lines: seq<string>)                 // llm.invoke in summarize_messages
    | Predict(pairs: seq<(string, string)>)              // CrossEncoder.predict

  /** The number of entries of `calls` that satisfy `p`. */
  function CountCalls(calls: seq<Call>, p: Call -> bool): (n: nat)
    ensures n <= |calls|
    ensures n == 0 <==> forall i :: 0 <= i < |calls| ==> !p(calls[i])
  {
    if calls == [] then 0
    else (if p(calls[0]) then 1 else 0) + CountCalls(calls[1..], p)
  }

  /** Counting distributes over concatenation of call records. */
  lemma {:induction false} CountCallsAppend(a: seq<Call>, b: seq<Call>, p: Call -> bool)
    ensures CountCalls(a + b, p) == CountCalls(a, p) + CountCalls(b, p)
  {
    if a != [] {
      assert (a + b)[1..] == a[1..] + b;
      CountCallsAppend(a[1..], b, p);
    } else {
      assert [] + b == b;
    }
  }
}
