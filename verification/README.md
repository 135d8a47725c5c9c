# A model of the deterministic core of a RAG chatbot

The chatbot answers questions about a company's documents. Its chat route
calls `handle_chat`, which rewrites the user's query with a language model,
routes document questions to retrieval-augmented generation (RAG), and
falls back to the plain language model otherwise. Its auth routes call
`register_user` and `authenticate_user`. The repository also holds services
that no request path calls:

- a cross-encoder reranker (`rag_answer` puts the vector-store hits straight
  into its prompt, without reranking);
- rolling conversation summaries kept in the database;
- a history manager;
- a follow-up decoration.

Most of the code is glue around network services. This project models the
deterministic logic around those services as pure Dafny functions, whether
or not a route reaches them, and proves what that logic guarantees:

- `Reranker`: `rerank_documents`. It scores every document, sorts by
  descending score with Python's stable sort, and keeps the first `top_k`.
- `ChatService`: `handle_chat(query, history, followup_answer) -> str`.
  - It rewrites the query once, or twice when a follow-up answer is given.
  - It summarises a long history.
  - It tries RAG for document questions; a RAG exception counts as no answer.
  - It falls back to the language model when no usable answer came back.
  - It offers to go deeper after a long RAG answer.
- `Summarizer` and `MemoryManager`: `summarize_chat` and `manage_memory`.
  Both share the ten-entry threshold.
- `MemoryService`: `handle_summarization` and `load_memory`.
  - `handle_summarization` summarises the messages written after the latest
    summary's watermark, once there are at least ten of them.
  - `load_memory` returns the latest summary with the last five messages.
- `Followup`: `generate_followup`, which appends a fixed invitation line.
- `AuthService`: `register_user` and `authenticate_user` over the `users`
  table.
- `Text`: the Python string operations these rely on: `strip()`, `split()`,
  `upper()`, `sep.join()`, and the "body, blank line, notice" decoration.
- `Common`: `Option` and the call record.

Every foreign call is a function-typed parameter that the model never
interprets. These are:

- the language model (query rewriting, the fallback answer, both summarisers);
- the document-question classifier;
- the RAG answerer, whose result is `Raised` or `Returned(answer)`;
- the cross-encoder;
- password hashing, password verification and token creation.

Each operation that consults the language model, the RAG answerer or the
cross-encoder also returns the list of calls it made, in order. A contract
can therefore say whether a collaborator was consulted, and with what.

Database tables are sequences of rows in ascending primary-key order. That
is the order an auto-incremented key produces, so `ORDER BY id` is the
sequence order and every query is a filter over it. An inserted row takes
the last key plus one, or 1 in an empty table.

The callers of `handle_chat` in `app/socket_server.py` and
`app/api/routes/chat_websocket.py` pass keyword arguments it does not accept
(`awaiting_followup`, `last_context`, `last_followup_question`). They also
read a `reply` field from its string result. No stateful follow-up
orchestrator matching those callers exists in the code. This model follows
the function as written in `app/services/chat_service.py`.

## Model

| member | source | states |
|---|---|---|
| Reranker.RerankDocuments | app/services/reranker_service.py:6-22 | The result has `min(top_k, len(docs))` documents, by the Python slice rule also for a negative `top_k`. The cross-encoder is called once on all `(query, page_content)` pairs, or not at all for an empty input. |
| Reranker.RerankSize | app/services/reranker_service.py:11-20 | An empty input gives an empty result and no scorer call. A non-empty input gives exactly one call, on every pair. The length is `min(top_k, len(docs))` for `top_k >= 0`, and `max(len(docs) + top_k, 0)` for a negative `top_k`. |
| Reranker.RerankDefaultTopK | app/services/reranker_service.py:6 | Without `top_k`, at most three documents are returned: `min(3, len(docs))`. |
| Reranker.RerankFromInput | app/services/reranker_service.py:17-20 | Every selected document is the input document at the position recorded for it. |
| Reranker.RerankSubBag | app/services/reranker_service.py:17-20 | As a multiset, the selection is contained in the input: no document appears more often than in the input. |
| Reranker.RerankOrdered | app/services/reranker_service.py:18-20 | Selected scores do not increase. Equally scored documents keep their input order, because the sort is stable even with `reverse=True`. |
| Reranker.RerankDominance | app/services/reranker_service.py:18-20 | Every input document that is not selected scores no higher than every selected one. |
| Reranker.RerankIsStableSortPrefix | app/services/reranker_service.py:17-20 | Take any permutation of the scored documents ranked by descending score with ties in input order. The selection is that permutation's first `top_k` documents. |
| Reranker.RankedUnique | app/services/reranker_service.py:18 | Two such rankings of the same entries are equal, so the stable descending order is fully determined. |
| Reranker.SortRanked | app/services/reranker_service.py:18 | Sorting entries given in input order ranks them by descending score, ties in input order. |
| Reranker.InsertRanked | app/services/reranker_service.py:18 | Inserting an entry earlier than all others into a ranked sequence keeps it ranked. |
| Reranker.SortDescending | app/services/reranker_service.py:18 | The sort is a permutation of its input: same length, same multiset of entries and of documents. |
| Reranker.SortFaithful | app/services/reranker_service.py:14-17 | Every ranked entry is an input document, at its own position, carrying the score the cross-encoder gives it. |
| Summarizer.SummarizeChat | app/services/summarizer.py:3-11 | The result is never longer than the history. It is the history itself or a single entry. The only call it makes is the summary of the whole history. |
| Summarizer.SummarizeChatThreshold | app/services/summarizer.py:4-11 | With fewer than 10 entries, the history comes back unchanged and nothing is called. With 10 or more, the result is the one-element list of the summary of the whole history. Both directions hold. |
| Summarizer.SummarizeChatCallsOnce | app/services/summarizer.py:4-9 | The language model is called exactly once if and only if the history has at least 10 entries, and otherwise never. |
| Summarizer.SummarizeChatStable | app/services/summarizer.py:3-11 | Summarising a result again returns it unchanged and calls nothing. |
| MemoryManager.ManageMemory | app/services/memory_manager.py:3-6 | The result is never longer than the history. A history shorter than 10 comes back unchanged with no call. |
| MemoryManager.ManageMemoryIsSummarizeChat | app/services/memory_manager.py:4-6 | `manage_memory` equals `summarize_chat` on every history, including the calls made, because the thresholds coincide. |
| MemoryService.LatestSummaryIsHighest | app/services/memory_service.py:18-23 | The latest summary exists if and only if the chat has a summary. It belongs to the chat, and no summary of the chat has a higher id. |
| MemoryService.WatermarkOfLatest | app/services/memory_service.py:18-25 | The watermark is 0 for a chat without summaries. Otherwise it is the `last_message_id` of the chat's summary with the highest id. |
| MemoryService.PendingExactly | app/services/memory_service.py:27-33 | The batch holds exactly the chat's messages with an id above the watermark, in ascending id order. |
| MemoryService.BatchBounds | app/services/memory_service.py:27-33 | The last message of a non-empty batch has its largest id, and that id lies above the watermark. |
| MemoryService.HandleSummarization | app/services/memory_service.py:17-52 | Messages are never changed. The store is unchanged and nothing is called if and only if fewer than 10 messages are pending. Otherwise exactly one summary row is appended, after the untouched old rows. The summariser is called once, on one `ROLE: content` line per pending message, in order. |
| MemoryService.Lines | app/services/memory_service.py:38-41 | There is one line per message, in order, each the message's `Line`. |
| MemoryService.SummarizationAppendsOne | app/services/memory_service.py:43-52 | The new row belongs to the chat and holds the stripped summary of the batch's lines. Its `last_message_id` is the largest id in the batch, which lies above the old watermark. Its id exceeds every existing summary id. |
| MemoryService.SummarizationWellFormed | app/services/memory_service.py:45-52 | Both tables stay in strictly ascending key order. |
| MemoryService.SummarizationIdempotent | app/services/memory_service.py:17-52 | Right after a summary is written nothing is pending. A second call changes nothing and calls nothing. |
| MemoryService.SummarizationLeavesOtherChats | app/services/memory_service.py:45-52 | Every other chat's messages and summaries are the same after the call. |
| MemoryService.SummarizationIgnoresOtherChats | app/services/memory_service.py:17-33 | Take two stores with the same records for a chat. They give that chat the same pending batch and the same summariser calls. |
| MemoryService.RecentBounded | app/services/memory_service.py:64-72 | The recent part holds `min(5, n)` messages of the chat, in ascending id order. |
| MemoryService.RecentAreLatest | app/services/memory_service.py:64-72 | Every message of the chat left out of the recent part has a lower id than every message in it. |
| MemoryService.LoadMemory | app/services/memory_service.py:54-79 | The summary text is `""` for a chat without summaries. Otherwise it is the text of one of the chat's summaries. The recent part is the recent messages, as `ROLE: content` lines joined by `"\n"`. |
| MemoryService.LoadMemorySummary | app/services/memory_service.py:55-62 | In a well-formed store, the summary text is `""` for a chat without summaries. Otherwise it is the text of the chat's summary with the highest id. |
| MemoryService.LoadMemoryRecent | app/services/memory_service.py:64-77 | In a well-formed store, the recent part is `min(5, n)` of the chat's messages, as `ROLE: content` lines joined by `"\n"`. They are in ascending id order, and every message of the chat left out has a lower id than every message kept. |
| MemoryService.LatestSummary | app/services/memory_service.py:18-23 | The result is a summary of the chat. There is none only when the chat has no summary. |
| MemoryService.Watermark | app/services/memory_service.py:25 | The watermark is 0 for a chat without summaries. Otherwise it is the `last_message_id` of one of the chat's summaries; `WatermarkOfLatest` says which one. |
| MemoryService.Pending | app/services/memory_service.py:27-33 | The batch holds a message if and only if the message belongs to the chat and its id lies above the watermark. In an ascending table the batch is ascending. |
| MemoryService.RecentMessages | app/services/memory_service.py:64-72 | At most five messages of the chat. Fewer than five only when they are all of the chat's messages. |
| MemoryService.LastFew | app/services/memory_service.py:67-72 | At most five entries, all taken from the input. Fewer than five only when that is the whole input. |
| MemoryService.LinesAppend | app/services/memory_service.py:38-41 | Each message is formatted on its own: formatting a concatenation concatenates the formatted parts. |
| MemoryService.LoadMemoryIgnoresOtherChats | app/services/memory_service.py:54-79 | Two stores with the same records for a chat give it the same memory. |
| MemoryService.MessagesOf | app/services/memory_service.py:27-31 | The filter keeps exactly the chat's messages, in table order. |
| MemoryService.NewerThan | app/services/memory_service.py:30 | The filter keeps exactly the messages above the watermark, in table order. |
| MemoryService.SummariesOf | app/services/memory_service.py:18-21 | The filter keeps exactly the chat's summaries, in table order. |
| Followup.GenerateFollowup | app/services/followup.py:1-8 | The result is the answer, then exactly `"\n\n"`, then the fixed invitation line. Its length is `len(answer) + 2 + len(line)`. |
| Followup.FollowupRoundTrip | app/services/followup.py:5-8 | Removing the invitation recovers the answer. Only the decorated answer gives that answer back. |
| Followup.FollowupInjective | app/services/followup.py:5-8 | Distinct answers give distinct results. |
| ChatService.RewriteStep | app/services/chat_service.py:22-28 | One rewrite against the history. A truthy follow-up answer adds a second rewrite of the first against the history plus `"User answered: " + answer`. |
| ChatService.ChooseAnswer | app/services/chat_service.py:34-60 | The RAG answer is used if and only if: the query is a document question, RAG returned, and the stripped answer has at least 20 characters. Otherwise the fallback answer is used. The calls are the classifier, then RAG only for document questions, then the fallback only when it answers. |
| ChatService.Reply | app/services/chat_service.py:63-70 | The reply is the answer, or the answer with the deeper-dive offer appended. |
| ChatService.HandleChat | app/services/chat_service.py:8-70 | The reply is the answer, possibly with the offer. A RAG answer has at least 20 characters once stripped. |
| ChatService.NoHistoryIsEmptyHistory | app/services/chat_service.py:18 | A missing history behaves exactly as an empty one. |
| ChatService.SecondRewriteIffFollowup | app/services/chat_service.py:22-28 | The query is rewritten twice if and only if `followup_answer` is truthy, and once otherwise. The second rewrite takes the first and the history extended by exactly `"User answered: " + followup_answer`. |
| ChatService.RagIffDocQuestion | app/services/chat_service.py:38-43 | RAG is consulted exactly once if the rewritten query is a document question, and never otherwise. It receives the rewritten query and the summarised history. |
| ChatService.AnswerSelection | app/services/chat_service.py:38-60 | The RAG answer is kept if and only if RAG returned one with at least 20 stripped characters. Otherwise, including when RAG raised, the fallback answers and `used_rag` is false. The fallback is called exactly when it answers. |
| ChatService.OfferIff | app/services/chat_service.py:63-70 | The offer is appended if and only if all three hold: RAG answered, `followup_answer is None`, and the answer has more than 60 words. Otherwise the reply is exactly the answer. |
| ChatService.EmptyFollowupAnswer | app/services/chat_service.py:24-28 | An empty follow-up answer causes no second rewrite, and still suppresses the offer. |
| ChatService.NonDocumentQuestion | app/services/chat_service.py:38-70 | A question not routed to the documents is answered by the fallback and never gets the offer. RAG is never called for it. |
| AuthService.AuthenticateUser | app/services/auth_service.py:20-26 | An unknown username gives `None`. A token is returned if and only if the user exists and the password verifies against the stored hash. The token is `create_access_token({"sub": username})`. |
| AuthService.FindUser | app/services/auth_service.py:7 | The lookup finds nothing if and only if no row has the username. Otherwise it finds a row with that username. |
| AuthService.RegisterUser | app/services/auth_service.py:6-18 | Registration succeeds if and only if the username is free. A failure leaves the table unchanged. A success appends exactly one row after the old ones. |
| AuthService.RegisterTakenRejected | app/services/auth_service.py:7-9 | A taken username is rejected and the table is left as it was. |
| AuthService.RegisterFreshAdds | app/services/auth_service.py:11-18 | A fresh username is registered with exactly one new row, which holds `hash_password(password)`. Lookups of every other username are unchanged. |
| AuthService.RegisterKeepsUnique | app/services/auth_service.py:6-18 | One registration keeps usernames unique. |
| AuthService.RegisterAllKeepsUnique | app/services/auth_service.py:6-18 | Usernames stay unique across any sequence of registrations. |
| AuthService.AuthenticateOutcomes | app/services/auth_service.py:20-26 | An unknown username gives `None`. A token is returned if and only if the user exists and the password verifies against the stored hash. The token is `create_access_token({"sub": username})`. |
| AuthService.RegisterThenAuthenticate | app/services/auth_service.py:6-26 | A freshly registered user logs in with the registration password, whenever the hash verifies against that password. |
| Text.Strip | app/services/chat_service.py:46 | `strip()` returns a middle with no white space at either end. It is empty exactly for all-white-space input, and the input is white space, that middle, white space. |
| Text.StripUnique | app/services/chat_service.py:46 | Any such split has the middle `Strip` returns, so `Strip` is Python's `strip()`. |
| Text.StripIdempotent | app/services/memory_service.py:14 | Stripping twice is stripping once. |
| Text.Words | app/services/chat_service.py:66 | `split()` returns non-empty words without white space. It returns none exactly for all-white-space input. The three lemmas below fix the words themselves. |
| Text.NoWordsInEmpty | app/services/chat_service.py:66 | The empty string has no words. |
| Text.SpaceThenWords | app/services/chat_service.py:66 | A white-space character in front of a string adds no word. |
| Text.WordThen | app/services/chat_service.py:66 | A non-empty run of non-white-space characters, followed by nothing or by white space, is the first word and is followed by the words of the rest. With the two lemmas above this determines `split()` on every string. |
| Text.WordsOfJoin | app/services/chat_service.py:66 | Splitting words joined by single blanks gives back the words. |
| Text.Upper | app/services/memory_service.py:39 | `upper()` keeps the length and maps each character. |
| Text.NoticeRoundTrip | app/services/chat_service.py:68 | Removing a notice appended after a blank line recovers the body. Only the decorated body gives that body back. |
| Text.UpperIdempotent | app/services/memory_service.py:39 | Upper-casing twice is upper-casing once. |
| Text.UpperAppend | app/services/memory_service.py:39 | Upper-casing a concatenation upper-cases each part. |
| Text.Join | app/services/memory_service.py:74-77 | Joining nothing gives `""`. Joining one part gives that part. Any join starts with its first part. |
| Text.JoinAppend | app/services/memory_service.py:74-77 | Joining two non-empty lists is their joins with one separator between them. With the two cases above this fixes `join` on every list. |
| Reranker.SliceStop | app/services/reranker_service.py:20 | `xs[:k]` keeps `k` elements when `0 <= k <= n` and all `n` when `k > n`. A negative `k` drops exactly `-k` elements from the end, or keeps nothing when `-k > n`. |

## Left out

- The prompts are left out, along with everything the language model, the query rewriter, the RAG answerer and the document-question classifier compute. They are opaque functions. `app/utils/query_router.py`, `app/services/query_rewrite.py` and `app/services/rag_service.py` are not part of this model.
- `summarize_messages` is an opaque function of the lines. Only the `strip()` of its reply is modelled.
- The cross-encoder model is an opaque scoring function. Its batch `predict` is modelled as one score per pair, recorded as one call.
- Reranker.RerankDocuments: scores are real numbers. Floating-point rounding and NaN, which breaks the sort's ordering, are not modelled.
- Text.Upper: only ASCII letters are case-mapped. Python's full Unicode `upper()`, which can also change the length, is not modelled.
- MemoryService.HandleSummarization: `last_message_id` is never NULL in this model. A NULL watermark in the database is not modelled.
- MemoryService.HandleSummarization: keys are assumed auto-incremented, so every table is in key order and a new summary gets the last key plus one. Deleted rows and reused keys are not modelled.
- Every collaborator is total, and only `rag_answer`'s exception is modelled. In `handle_chat`, an exception from `rewrite_query`, from the language-model call inside `summarize_chat`, from `is_doc_question` or from the fallback `llm.invoke` propagates to the caller. The model has no such outcome. The same holds for a failing `summarize_messages` in `handle_summarization`, which stops before any row is added.
- The nullable columns `role`, `content` and `summary_text` are modelled as strings that are never NULL. A NULL `role` makes `role.upper()` raise in both memory functions; the model does not cover that.
- The database session, `commit` and `refresh`, concurrent writers and transaction failure are left out. Each operation returns the table after it.
- AuthService.AuthenticateUser: it returns no table, so "login never modifies the table" holds by construction and needs no separate statement.
- Password hashing, verification and token creation are opaque functions. `app/core/password.py` and `app/core/security.py` are not part of this model.
- The `created_at` columns are not modelled, because no modelled operation reads them.
- Transport, vector store, ingestion, file loading and the user interface are left out. `handle_chat`'s callers in the socket and websocket routes use a different signature and are not modelled.
