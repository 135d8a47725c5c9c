/** `manage_memory`: hand a long history to `summarize_chat`, keep a short one. */
module MemoryManager {
  import opened Summarizer

  /** `manage_memory(chat_history)`. */
  function ManageMemory(summarize: seq<string> -> string, chatHistory: seq<string>): (r: Summarized)
    ensures |r.history| <= |chatHistory|
    ensures |chatHistory| < Threshold ==> r.history == chatHistory && r.calls == []
  {
    if |chatHistory| >= Threshold then SummarizeChat(summarize, chatHistory) else Summarized(chatHistory, [])
  }

  /** Both functions test the same threshold, so `manage_memory` behaves as
      `summarize_chat` on every history, language-model calls included. */
  lemma ManageMemoryIsSummarizeChat(summarize: seq<string> -> string, chatHistory: seq<string>)
    ensures ManageMemory(summarize, chatHistory) == SummarizeChat(summarize, chatHistory)
  {
  }
}
