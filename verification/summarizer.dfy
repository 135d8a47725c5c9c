/** `summarize_chat`: a history of ten or more entries is replaced by a single
    summary written by the language model; a shorter one is passed through. */
module Summarizer {
  import opened Common

  /** The history length from which `summarize_chat` calls the language model. */
  const Threshold: nat := 10

  /** The history handed on, and the language-model calls made to obtain it. */
  datatype Summarized = Summarized(history: seq<string>, calls: seq<Call>)

  predicate IsSummaryCall(c: Call) {
    c.SummarizeHistory?
  }

  /** `summarize_chat(history)`; `summarize` is the language model's reply to
      the "Summarize this chat briefly" prompt built from `history`. */
  function SummarizeChat(summarize: seq<string> -> string, history: seq<string>): (r: Summarized)
    ensures |r.history| <= |history|
    ensures r.history == history || |r.history| == 1
    ensures forall i :: 0 <= i < |r.calls| ==> r.calls[i] == SummarizeHistory(history)
  {
    if |history| < Threshold then Summarized(history, [])
    else Summarized([summarize(history)], [SummarizeHistory(history)])
  }

  /** A history shorter than the threshold comes back unchanged and the
      language model is not consulted; a longer one becomes the one-element
      list holding the model's summary of the whole history. */
  lemma SummarizeChatThreshold(summarize: seq<string> -> string, history: seq<string>)
    ensures var r := SummarizeChat(summarize, history);
            && (|history| < Threshold <==> r.history == history && r.calls == [])
            && (|history| >= Threshold <==> r.history == [summarize(history)] && r.calls == [SummarizeHistory(history)])
  {
  }

  /** The language model is called exactly once when the history has at least
      ten entries, and never otherwise. */
  lemma SummarizeChatCallsOnce(summarize: seq<string> -> string, history: seq<string>)
    ensures var n := CountCalls(SummarizeChat(summarize, history).calls, IsSummaryCall);
            (n == 1 <==> |history| >= Threshold) && (n == 0 <==> |history| < Threshold)
  {
    var calls := SummarizeChat(summarize, history).calls;
    if |history| >= Threshold {
      assert calls[1..] == [];
    }
  }

  /** Summarising a summarised history changes nothing and calls nothing: the
      output is always below the threshold or already short. */
  lemma SummarizeChatStable(summarize: seq<string> -> string, history: seq<string>)
    ensures var h := SummarizeChat(summarize, history).history;
            SummarizeChat(summarize, h) == Summarized(h, [])
  {
  }
}
