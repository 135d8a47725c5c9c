/** `memory_service`: rolling summaries of a stored conversation.
    `handle_summarization` summarises the messages written since the latest
    summary once there are at least ten of them; `load_memory` returns the
    latest summary together with the last five messages.

    The two tables are sequences of rows in ascending primary-key order, the
    order in which an auto-incremented key inserts them; `ORDER BY id` is
    therefore the sequence order, and filters keep it. */
module MemoryService {
  import opened Common
  import opened Text

  /** A row of `chat_messages`. */
  datatype ChatMessage = ChatMessage(id: int, chatId: string, role: string, content: string)

  /** A row of `chat_summaries`: the summary of the chat up to `lastMessageId`. */
  datatype ChatSummary = ChatSummary(id: int, chatId: string, summaryText: string, lastMessageId: int)

  datatype Store = Store(messages: seq<ChatMessage>, summaries: seq<ChatSummary>)

  /** The result of `handle_summarization`: the store after the call and the
      language-model calls it made. */
  datatype Summarization = Summarization(db: Store, calls: seq<Call>)

  /** The result of `load_memory`: `(summary_text, formatted_recent)`. */
  datatype Memory = Memory(summaryText: string, recent: string)

  /** `handle_summarization` does nothing with fewer pending messages. */
  const BatchMinimum: nat := 10

  /** `load_memory` shows at most this many recent messages. */
  const RecentLimit: nat := 5

  predicate MessagesAscending(ms: seq<ChatMessage>) {
    forall i, j :: 0 <= i < j < |ms| ==> ms[i].id < ms[j].id
  }

  predicate SummariesAscending(ss: seq<ChatSummary>) {
    forall i, j :: 0 <= i < j < |ss| ==> ss[i].id < ss[j].id
  }

  /** Both tables are in strictly ascending key order (keys are unique). */
  predicate WellFormed(db: Store) {
    MessagesAscending(db.messages) && SummariesAscending(db.summaries)
  }

  // ---------------------------------------------------------------------------
  // Queries

  /** `filter(ChatMessage.chat_id == chat_id)`, in table order. */
  function MessagesOf(ms: seq<ChatMessage>, chatId: string): (r: seq<ChatMessage>)
    ensures |r| <= |ms|
    ensures forall m :: m in r <==> m in ms && m.chatId == chatId
    ensures MessagesAscending(ms) ==> MessagesAscending(r)
  {
    if ms == [] then []
    else
      var rest := MessagesOf(ms[1..], chatId);
      assert forall m :: m in ms <==> m == ms[0] || m in ms[1..];
      if ms[0].chatId == chatId then [ms[0]] + rest else rest
  }

  /** `filter(ChatMessage.id > watermark)`, in table order. */
  function NewerThan(ms: seq<ChatMessage>, watermark: int): (r: seq<ChatMessage>)
    ensures |r| <= |ms|
    ensures forall m :: m in r <==> m in ms && m.id > watermark
    ensures MessagesAscending(ms) ==> MessagesAscending(r)
  {
    if ms == [] then []
    else
      var rest := NewerThan(ms[1..], watermark);
      assert forall m :: m in ms <==> m == ms[0] || m in ms[1..];
      if ms[0].id > watermark then [ms[0]] + rest else rest
  }

  /** `filter(ChatSummary.chat_id == chat_id)`, in table order. */
  function SummariesOf(ss: seq<ChatSummary>, chatId: string): (r: seq<ChatSummary>)
    ensures |r| <= |ss|
    ensures forall s :: s in r <==> s in ss && s.chatId == chatId
    ensures SummariesAscending(ss) ==> SummariesAscending(r)
  {
    if ss == [] then []
    else
      var rest := SummariesOf(ss[1..], chatId);
      assert forall s :: s in ss <==> s == ss[0] || s in ss[1..];
      if ss[0].chatId == chatId then [ss[0]] + rest else rest
  }

  /** `order_by(ChatSummary.id.desc()).first()` over the chat's summaries. */
  function LatestSummary(db: Store, chatId: string): (r: Option<ChatSummary>)
    ensures r.Some? ==> r.value in db.summaries && r.value.chatId == chatId
    ensures r.None? ==> forall s :: s in db.summaries ==> s.chatId != chatId
  {
    var own := SummariesOf(db.summaries, chatId);
    if own == [] then None else Some(own[|own| - 1])
  }

  /** The latest summary is a summary of the chat, there is one exactly when
      the chat has any, and no summary of the chat has a higher id. */
  lemma LatestSummaryIsHighest(db: Store, chatId: string)
    ensures var r := LatestSummary(db, chatId);
            && (r.None? <==> forall s :: s in db.summaries ==> s.chatId != chatId)
            && (r.Some? ==> r.value in db.summaries && r.value.chatId == chatId)
            && (r.Some? && SummariesAscending(db.summaries) ==>
                  forall s :: s in db.summaries && s.chatId == chatId ==> s.id <= r.value.id)
  {
    var own := SummariesOf(db.summaries, chatId);
    if own != [] {
      assert own[|own| - 1] in own;
      if SummariesAscending(db.summaries) {
        forall s | s in db.summaries && s.chatId == chatId ensures s.id <= own[|own| - 1].id {
          var k :| 0 <= k < |own| && own[k] == s;
        }
      }
    }
  }

  /** The summary row `handle_summarization` writes for a pending batch. */
  function NewSummary(db: Store, chatId: string, summarize: seq<string> -> string, batch: seq<ChatMessage>): ChatSummary
    requires batch != []
  {
    ChatSummary(NextSummaryId(db.summaries), chatId, Strip(summarize(Lines(batch))), batch[|batch| - 1].id)
  }

  /** The id of the last message already summarised: `last_message_id` of the
      latest summary, or 0 when the chat has none. */
  function Watermark(db: Store, chatId: string): (w: int)
    ensures (forall s :: s in db.summaries ==> s.chatId != chatId) ==> w == 0
    ensures (exists s :: s in db.summaries && s.chatId == chatId) ==>
              exists s :: s in db.summaries && s.chatId == chatId && s.lastMessageId == w
  {
    match LatestSummary(db, chatId)
    case Some(s) => s.lastMessageId
    case None => 0
  }

  /** The messages of the chat written after the watermark, ascending by id. */
  function Pending(db: Store, chatId: string): (p: seq<ChatMessage>)
    ensures |p| <= |db.messages|
    ensures forall m :: m in p <==> m in db.messages && m.chatId == chatId && m.id > Watermark(db, chatId)
    ensures MessagesAscending(db.messages) ==> MessagesAscending(p)
  {
    NewerThan(MessagesOf(db.messages, chatId), Watermark(db, chatId))
  }

  /** `f"{m.role.upper()}: {m.content}"`. */
  function Line(m: ChatMessage): string {
    Upper(m.role) + ": " + m.content
  }

  /** One line per message, in order. */
  function Lines(ms: seq<ChatMessage>): (ls: seq<string>)
    ensures |ls| == |ms|
    ensures forall i :: 0 <= i < |ms| ==> ls[i] == Line(ms[i])
  {
    seq(|ms|, i requires 0 <= i < |ms| => Line(ms[i]))
  }

  /** Formatting distributes over concatenation: each message is formatted
      on its own. */
  lemma LinesAppend(a: seq<ChatMessage>, b: seq<ChatMessage>)
    ensures Lines(a + b) == Lines(a) + Lines(b)
  {
  }

  /** The key the store assigns to the next summary row. */
  function NextSummaryId(ss: seq<ChatSummary>): (id: int)
    ensures SummariesAscending(ss) ==> forall k :: 0 <= k < |ss| ==> ss[k].id < id
  {
    if ss == [] then 1 else ss[|ss| - 1].id + 1
  }

  // ---------------------------------------------------------------------------
  // Operations

  /** `handle_summarization(db, chat_id)`; `summarize` is the language model's
      reply to the prompt built from the lines, which `summarize_messages`
      strips. */
  function HandleSummarization(db: Store, chatId: string, summarize: seq<string> -> string): (r: Summarization)
    ensures r.db.messages == db.messages
    ensures |Pending(db, chatId)| < BatchMinimum <==> r.db == db && r.calls == []
    ensures |Pending(db, chatId)| >= BatchMinimum ==>
              && |r.db.summaries| == |db.summaries| + 1
              && r.db.summaries[..|db.summaries|] == db.summaries
              && r.calls == [SummarizeLines(Lines(Pending(db, chatId)))]
  {
    var batch := Pending(db, chatId);
    if |batch| < BatchMinimum then Summarization(db, [])
    else
      var summary := NewSummary(db, chatId, summarize, batch);
      assert (db.summaries + [summary])[..|db.summaries|] == db.summaries;
      Summarization(Store(db.messages, db.summaries + [summary]), [SummarizeLines(Lines(batch))])
  }

  /** The messages of the chat with the highest ids, at most five, ascending. */
  function RecentMessages(db: Store, chatId: string): (rs: seq<ChatMessage>)
    ensures |rs| <= RecentLimit
    ensures |rs| == RecentLimit || rs == MessagesOf(db.messages, chatId)
    ensures forall m :: m in rs ==> m in db.messages && m.chatId == chatId
  {
    LastFew(MessagesOf(db.messages, chatId))
  }

  /** `order_by(id.desc()).limit(5)` followed by `reverse()`: the last five
      entries of an ascending sequence, or all of them when there are fewer. */
  function LastFew(own: seq<ChatMessage>): (rs: seq<ChatMessage>)
    ensures |rs| <= RecentLimit
    ensures |rs| == RecentLimit || rs == own
    ensures forall m :: m in rs ==> m in own
  {
    if |own| <= RecentLimit then own
    else
      var rs := own[|own| - RecentLimit..];
      assert forall j :: 0 <= j < |rs| ==> rs[j] == own[|own| - RecentLimit + j];
      rs
  }

  /** `load_memory(db, chat_id)`. */
  function LoadMemory(db: Store, chatId: string): (r: Memory)
    ensures (forall s :: s in db.summaries ==> s.chatId != chatId) ==> r.summaryText == ""
    ensures (exists s :: s in db.summaries && s.chatId == chatId) ==>
              exists s :: s in db.summaries && s.chatId == chatId && s.summaryText == r.summaryText
    ensures r.recent == Join("\n", Lines(RecentMessages(db, chatId)))
  {
    Remember(LatestSummary(db, chatId), RecentMessages(db, chatId))
  }

  /** The pair `load_memory` builds from the latest summary and the recent
      messages. */
  function Remember(latest: Option<ChatSummary>, recent: seq<ChatMessage>): Memory {
    var text := match latest
      case Some(s) => s.summaryText
      case None => "";
    Memory(text, Join("\n", Lines(recent)))
  }

  // ---------------------------------------------------------------------------
  // Properties

  /** The watermark is the `last_message_id` of the chat's summary with the
      highest id, or 0 when the chat has no summary. */
  lemma WatermarkOfLatest(db: Store, chatId: string)
    requires WellFormed(db)
    ensures (forall s :: s in db.summaries ==> s.chatId != chatId) ==> Watermark(db, chatId) == 0
    ensures forall s :: s in db.summaries && s.chatId == chatId ==>
              exists t :: t in db.summaries && t.chatId == chatId && t.id >= s.id && Watermark(db, chatId) == t.lastMessageId
  {
    LatestSummaryIsHighest(db, chatId);
  }

  /** The pending messages are exactly the chat's messages after the
      watermark, in ascending id order. */
  lemma PendingExactly(db: Store, chatId: string)
    requires WellFormed(db)
    ensures var p := Pending(db, chatId);
            && MessagesAscending(p)
            && forall m :: m in p <==> m in db.messages && m.chatId == chatId && m.id > Watermark(db, chatId)
  {
  }

  /** In an ascending sequence the last message has the largest id. */
  lemma LastIsLargest(ms: seq<ChatMessage>)
    requires MessagesAscending(ms) && ms != []
    ensures forall m :: m in ms ==> m.id <= ms[|ms| - 1].id
  {
    forall m | m in ms ensures m.id <= ms[|ms| - 1].id {
      var k :| 0 <= k < |ms| && ms[k] == m;
    }
  }

  /** The last pending message has the largest pending id, which lies
      beyond the watermark. */
  lemma BatchBounds(db: Store, chatId: string)
    requires WellFormed(db) && Pending(db, chatId) != []
    ensures var batch := Pending(db, chatId);
            && (forall m :: m in batch ==> m.id <= batch[|batch| - 1].id)
            && batch[|batch| - 1].id > Watermark(db, chatId)
  {
    var batch := Pending(db, chatId);
    assert MessagesAscending(MessagesOf(db.messages, chatId));
    assert MessagesAscending(batch);
    LastIsLargest(batch);
    assert batch[|batch| - 1] in batch;
  }

  lemma SummarizationWrites(db: Store, chatId: string, summarize: seq<string> -> string)
    requires |Pending(db, chatId)| >= BatchMinimum
    ensures HandleSummarization(db, chatId, summarize).db.summaries
            == db.summaries + [NewSummary(db, chatId, summarize, Pending(db, chatId))]
  {
  }

  /** A batch of ten or more pending messages yields exactly one new summary
      of this chat, made from one `ROLE: content` line per pending message,
      whose `last_message_id` is the largest pending id, which lies beyond the
      old watermark. */
  lemma SummarizationAppendsOne(db: Store, chatId: string, summarize: seq<string> -> string)
    requires WellFormed(db)
    requires |Pending(db, chatId)| >= BatchMinimum
    ensures var r := HandleSummarization(db, chatId, summarize);
            var batch := Pending(db, chatId);
            var s := r.db.summaries[|db.summaries|];
            && s.chatId == chatId
            && s.summaryText == Strip(summarize(Lines(batch)))
            && (exists m :: m in batch && m.id == s.lastMessageId)
            && (forall m :: m in batch ==> m.id <= s.lastMessageId)
            && s.lastMessageId > Watermark(db, chatId)
            && (forall k :: 0 <= k < |db.summaries| ==> db.summaries[k].id < s.id)
  {
    var batch := Pending(db, chatId);
    var s := NewSummary(db, chatId, summarize, batch);
    SummarizationWrites(db, chatId, summarize);
    assert (db.summaries + [s])[|db.summaries|] == s;
    BatchBounds(db, chatId);
    assert batch[|batch| - 1] in batch;
  }

  /** `handle_summarization` keeps both tables in ascending key order. */
  lemma SummarizationWellFormed(db: Store, chatId: string, summarize: seq<string> -> string)
    requires WellFormed(db)
    ensures WellFormed(HandleSummarization(db, chatId, summarize).db)
  {
  }

  lemma {:induction false} NoneNewer(ms: seq<ChatMessage>, watermark: int)
    requires forall m :: m in ms ==> m.id <= watermark
    ensures NewerThan(ms, watermark) == []
  {
    if ms != [] {
      assert ms[0] in ms;
      NoneNewer(ms[1..], watermark);
    }
  }

  /** Right after a summary is written nothing is pending, so an immediate
      second call changes nothing and calls nothing. */
  lemma SummarizationIdempotent(db: Store, chatId: string, summarize: seq<string> -> string)
    requires WellFormed(db)
    ensures var db1 := HandleSummarization(db, chatId, summarize).db;
            HandleSummarization(db1, chatId, summarize) == Summarization(db1, [])
  {
    var batch := Pending(db, chatId);
    if |batch| >= BatchMinimum {
      var db1 := HandleSummarization(db, chatId, summarize).db;
      SummarizationAppendsOne(db, chatId, summarize);
      SummarizationWellFormed(db, chatId, summarize);
      var s := db1.summaries[|db.summaries|];
      assert s in db1.summaries;
      assert LatestSummary(db1, chatId) == Some(s) by {
        LatestSummaryIsHighest(db1, chatId);
        var t := LatestSummary(db1, chatId).value;
        assert t.id >= s.id;
        var k :| 0 <= k < |db1.summaries| && db1.summaries[k] == t;
        if k < |db.summaries| { assert false; }
      }
      forall m | m in MessagesOf(db1.messages, chatId) ensures m.id <= Watermark(db1, chatId) {
      }
      NoneNewer(MessagesOf(db1.messages, chatId), Watermark(db1, chatId));
    }
  }

  /** The recent part holds the chat's messages, at most five of them, in
      ascending id order. */
  lemma RecentBounded(db: Store, chatId: string)
    requires WellFormed(db)
    ensures var rs := RecentMessages(db, chatId);
            var own := MessagesOf(db.messages, chatId);
            && |rs| == (if |own| < RecentLimit then |own| else RecentLimit)
            && MessagesAscending(rs)
            && (forall m :: m in rs ==> m in db.messages && m.chatId == chatId)
  {
    var own := MessagesOf(db.messages, chatId);
    if |own| > RecentLimit {
      var rs := own[|own| - RecentLimit..];
      forall m | m in rs ensures m in own {
        var j :| 0 <= j < |rs| && rs[j] == m;
        assert own[|own| - RecentLimit + j] == m;
      }
    }
  }

  /** Every message of the chat left out of the recent part has a smaller id
      than every message in it. */
  lemma RecentAreLatest(db: Store, chatId: string)
    requires WellFormed(db)
    ensures var rs := RecentMessages(db, chatId);
            forall m, n :: m in MessagesOf(db.messages, chatId) && m !in rs && n in rs ==> m.id < n.id
  {
    var rs := RecentMessages(db, chatId);
    var own := MessagesOf(db.messages, chatId);
    if |own| > RecentLimit {
      var cut := |own| - RecentLimit;
      forall m, n | m in own && m !in rs && n in rs ensures m.id < n.id {
        var i :| 0 <= i < |own| && own[i] == m;
        var j :| 0 <= j < |rs| && rs[j] == n;
        assert own[cut + j] == n;
        if i >= cut { assert false; }
      }
    }
  }

  /** `load_memory` returns the text of the chat's summary with the highest
      id, or "" for a chat without summaries. */
  lemma LoadMemorySummary(db: Store, chatId: string)
    requires WellFormed(db)
    ensures var r := LoadMemory(db, chatId);
            && ((forall s :: s in db.summaries ==> s.chatId != chatId) ==> r.summaryText == "")
            && ((exists s :: s in db.summaries && s.chatId == chatId) ==>
                  exists t :: t in db.summaries && t.chatId == chatId && r.summaryText == t.summaryText
                    && forall s :: s in db.summaries && s.chatId == chatId ==> s.id <= t.id)
  {
    LatestSummaryIsHighest(db, chatId);
  }

  /** `load_memory` formats the chat's `min(5, n)` messages with the highest
      ids, ascending, as `ROLE: content` lines joined by newlines. */
  lemma LoadMemoryRecent(db: Store, chatId: string)
    requires WellFormed(db)
    ensures var r := LoadMemory(db, chatId);
            var rs := RecentMessages(db, chatId);
            var own := MessagesOf(db.messages, chatId);
            && r.recent == Join("\n", Lines(rs))
            && |rs| == (if |own| < RecentLimit then |own| else RecentLimit)
            && MessagesAscending(rs)
            && (forall m :: m in rs ==> m in own)
            && (forall m, n :: m in own && m !in rs && n in rs ==> m.id < n.id)
  {
    RecentBounded(db, chatId);
    RecentAreLatest(db, chatId);
  }

  /** Two stores that hold the same records for a chat give that chat the
      same memory: other chats never matter to `load_memory`. */
  lemma LoadMemoryIgnoresOtherChats(db: Store, db': Store, chatId: string)
    requires MessagesOf(db.messages, chatId) == MessagesOf(db'.messages, chatId)
    requires SummariesOf(db.summaries, chatId) == SummariesOf(db'.summaries, chatId)
    ensures LoadMemory(db, chatId) == LoadMemory(db', chatId)
  {
    LatestSummaryOfSame(db, db', chatId);
    RecentMessagesOfSame(db, db', chatId);
  }

  lemma LatestSummaryOfSame(db: Store, db': Store, chatId: string)
    requires SummariesOf(db.summaries, chatId) == SummariesOf(db'.summaries, chatId)
    ensures LatestSummary(db, chatId) == LatestSummary(db', chatId)
  {
  }

  lemma RecentMessagesOfSame(db: Store, db': Store, chatId: string)
    requires MessagesOf(db.messages, chatId) == MessagesOf(db'.messages, chatId)
    ensures RecentMessages(db, chatId) == RecentMessages(db', chatId)
  {
    assert RecentMessages(db, chatId) == LastFew(MessagesOf(db.messages, chatId));
    assert RecentMessages(db', chatId) == LastFew(MessagesOf(db'.messages, chatId));
  }

  /** Two stores that hold the same records for a chat give that chat the
      same pending batch and so the same summariser calls: other chats never
      matter to `handle_summarization`. */
  lemma SummarizationIgnoresOtherChats(db: Store, db': Store, chatId: string, summarize: seq<string> -> string)
    requires MessagesOf(db.messages, chatId) == MessagesOf(db'.messages, chatId)
    requires SummariesOf(db.summaries, chatId) == SummariesOf(db'.summaries, chatId)
    ensures Pending(db, chatId) == Pending(db', chatId)
    ensures HandleSummarization(db, chatId, summarize).calls == HandleSummarization(db', chatId, summarize).calls
  {
    LatestSummaryOfSame(db, db', chatId);
    assert Watermark(db, chatId) == Watermark(db', chatId);
  }

  lemma {:induction false} SummariesOfAppend(ss: seq<ChatSummary>, x: ChatSummary, chatId: string)
    ensures SummariesOf(ss + [x], chatId) == SummariesOf(ss, chatId) + (if x.chatId == chatId then [x] else [])
  {
    if ss != [] {
      assert (ss + [x])[1..] == ss[1..] + [x];
      SummariesOfAppend(ss[1..], x, chatId);
    } else {
      assert [x][1..] == [];
    }
  }

  /** `handle_summarization` leaves the records of every other chat as they
      were. */
  lemma SummarizationLeavesOtherChats(db: Store, chatId: string, other: string, summarize: seq<string> -> string)
    requires other != chatId
    ensures var db1 := HandleSummarization(db, chatId, summarize).db;
            MessagesOf(db1.messages, other) == MessagesOf(db.messages, other)
            && SummariesOf(db1.summaries, other) == SummariesOf(db.summaries, other)
  {
    var db1 := HandleSummarization(db, chatId, summarize).db;
    if db1 != db {
      var s := db1.summaries[|db.summaries|];
      assert db1.summaries == db.summaries + [s];
      SummariesOfAppend(db.summaries, s, other);
    }
  }
}
