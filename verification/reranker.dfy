/** `rerank_documents`: score every document against the query with the
    cross-encoder, sort by score from high to low with Python's stable sort,
    and keep the first `top_k`. The cross-encoder is an opaque scoring
    function; its floating-point scores are modelled as reals. */
module Reranker {
  import opened Common

  /** A retrieved passage: LangChain's `Document` with its `page_content`. */
  datatype Document = Document(pageContent: string, metadata: map<string, string>)

  /** One entry of `zip(docs, scores)`, tagged with the position of its
      document in the input list (the identity of the Python object). */
  datatype Scored = Scored(doc: Document, score: real, pos: nat)

  /** The result: the selected documents, the input position each of them was
      taken from, and the calls made to the cross-encoder. */
  datatype Reranking = Reranking(selected: seq<Document>, origin: seq<nat>, calls: seq<Call>)

  /** The default `top_k` of `rerank_documents`. */
  const DefaultTopK: int := 3

  /** The `(query, doc.page_content)` pairs handed to the cross-encoder. */
  function Pairs(query: string, docs: seq<Document>): seq<(string, string)> {
    seq(|docs|, i requires 0 <= i < |docs| => (query, docs[i].pageContent))
  }

  /** `zip(docs, scores)`, one score per document. */
  function ScoreAll(query: string, docs: seq<Document>, score: (string, string) -> real): seq<Scored> {
    seq(|docs|, i requires 0 <= i < |docs| => Scored(docs[i], score(query, docs[i].pageContent), i))
  }

  /** Every entry carries a document of the input, at its own position, with
      the score the cross-encoder gives that document. */
  predicate Faithful(s: seq<Scored>, query: string, docs: seq<Document>, score: (string, string) -> real) {
    forall k :: 0 <= k < |s| ==>
      s[k].pos < |docs| && s[k].doc == docs[s[k].pos] && s[k].score == score(query, s[k].doc.pageContent)
  }

  /** `a` comes before `b` in the output of a stable sort on descending score:
      a higher score, or an equal score and an earlier input position. */
  predicate Precedes(a: Scored, b: Scored) {
    a.score > b.score || (a.score == b.score && a.pos < b.pos)
  }

  /** Every entry precedes every later one. */
  predicate Ranked(s: seq<Scored>) {
    forall i, j :: 0 <= i < j < |s| ==> Precedes(s[i], s[j])
  }

  /** Input positions strictly increase, as they do in `zip(docs, scores)`. */
  predicate InInputOrder(s: seq<Scored>) {
    forall i, j :: 0 <= i < j < |s| ==> s[i].pos < s[j].pos
  }

  function DocsOf(s: seq<Scored>): seq<Document> {
    seq(|s|, i requires 0 <= i < |s| => s[i].doc)
  }

  function PositionsOf(s: seq<Scored>): seq<nat> {
    seq(|s|, i requires 0 <= i < |s| => s[i].pos)
  }

  /** Places `x` in front of the first entry that does not outscore it. */
  function Insert(x: Scored, s: seq<Scored>): (r: seq<Scored>)
    ensures |r| == |s| + 1
    ensures multiset(r) == multiset(s) + multiset{x}
    ensures multiset(DocsOf(r)) == multiset(DocsOf(s)) + multiset{x.doc}
  {
    if s == [] || x.score >= s[0].score then
      assert DocsOf([x] + s) == [x.doc] + DocsOf(s);
      [x] + s
    else
      var t := Insert(x, s[1..]);
      assert s == [s[0]] + s[1..];
      assert DocsOf(s) == [s[0].doc] + DocsOf(s[1..]);
      assert DocsOf([s[0]] + t) == [s[0].doc] + DocsOf(t);
      [s[0]] + t
  }

  /** `scored_docs.sort(key=lambda x: x[1], reverse=True)`, as an insertion
      sort over the entries. */
  function SortDescending(s: seq<Scored>): (r: seq<Scored>)
    ensures |r| == |s|
    ensures multiset(r) == multiset(s)
    ensures multiset(DocsOf(r)) == multiset(DocsOf(s))
  {
    if s == [] then []
    else
      assert s == [s[0]] + s[1..];
      assert DocsOf(s) == [s[0].doc] + DocsOf(s[1..]);
      Insert(s[0], SortDescending(s[1..]))
  }

  /** The stop index of the Python slice `xs[:k]` on a list of length `n`:
      a negative `k` counts from the end. */
  function SliceStop(n: nat, k: int): (e: nat)
    ensures e <= n
    ensures 0 <= k <= n ==> e == k
    ensures k > n ==> e == n
    ensures k < 0 && -k <= n ==> n - e == -k
    ensures k < 0 && -k > n ==> e == 0
  {
    if k >= 0 then (if k < n then k else n)
    else if n + k > 0 then n + k else 0
  }

  /** `rerank_documents(query, docs, top_k)`. */
  function RerankDocuments(query: string, docs: seq<Document>, score: (string, string) -> real,
                           topK: int := DefaultTopK): (r: Reranking)
    ensures |r.selected| == |r.origin| == SliceStop(|docs|, topK)
    ensures docs == [] ==> r.calls == []
    ensures docs != [] ==> r.calls == [Predict(Pairs(query, docs))]
  {
    if docs == [] then Reranking([], [], [])
    else
      var ranked := SortDescending(ScoreAll(query, docs, score));
      var top := ranked[..SliceStop(|ranked|, topK)];
      Reranking(DocsOf(top), PositionsOf(top), [Predict(Pairs(query, docs))])
  }

  /** The full ranking `RerankDocuments` takes its prefix from. */
  function Ranking(query: string, docs: seq<Document>, score: (string, string) -> real): seq<Scored> {
    SortDescending(ScoreAll(query, docs, score))
  }

  // ---------------------------------------------------------------------------
  // The sort is a stable descending sort

  /** `x` placed in front of a ranked sequence it does not score below. */
  lemma InsertFrontRanked(x: Scored, s: seq<Scored>)
    requires Ranked(s)
    requires forall k :: 0 <= k < |s| ==> x.pos < s[k].pos
    requires s == [] || x.score >= s[0].score
    ensures Ranked([x] + s)
  {
    var r := [x] + s;
    forall i, j | 0 <= i < j < |r| ensures Precedes(r[i], r[j]) {
      assert r[j] == s[j - 1];
      if i == 0 {
        assert x.pos < s[j - 1].pos;
        assert s[0].score >= s[j - 1].score by {
          if j > 1 { assert Precedes(s[0], s[j - 1]); }
        }
      } else {
        assert r[i] == s[i - 1];
      }
    }
  }

  /** A ranked head kept in front of a ranked tail that holds only entries
      it precedes. */
  lemma ConsRanked(y: Scored, t: seq<Scored>)
    requires Ranked(t)
    requires forall k :: 0 <= k < |t| ==> Precedes(y, t[k])
    ensures Ranked([y] + t)
  {
    var r := [y] + t;
    forall i, j | 0 <= i < j < |r| ensures Precedes(r[i], r[j]) {
      if i == 0 { assert r[j] == t[j - 1]; } else { assert r[i] == t[i - 1] && r[j] == t[j - 1]; }
    }
  }

  lemma {:induction false} InsertRanked(x: Scored, s: seq<Scored>)
    requires Ranked(s)
    requires forall k :: 0 <= k < |s| ==> x.pos < s[k].pos
    ensures Ranked(Insert(x, s))
  {
    if s == [] || x.score >= s[0].score {
      InsertFrontRanked(x, s);
    } else {
      var t := Insert(x, s[1..]);
      InsertRanked(x, s[1..]);
      forall j | 0 <= j < |t| ensures Precedes(s[0], t[j]) {
        assert t[j] in multiset(t);
        if t[j] != x {
          assert t[j] in multiset(s[1..]);
          var m :| 0 <= m < |s[1..]| && s[1..][m] == t[j];
          assert s[m + 1] == t[j];
        }
      }
      ConsRanked(s[0], t);
    }
  }

  /** Sorting entries taken in input order yields them ranked by descending
      score, ties in input order. */
  lemma {:induction false} SortRanked(s: seq<Scored>)
    requires InInputOrder(s)
    ensures Ranked(SortDescending(s))
  {
    if s != [] {
      var t := SortDescending(s[1..]);
      SortRanked(s[1..]);
      forall k | 0 <= k < |t| ensures s[0].pos < t[k].pos {
        assert t[k] in multiset(s[1..]);
        var m :| 0 <= m < |s[1..]| && s[1..][m] == t[k];
        assert s[m + 1] == t[k];
      }
      InsertRanked(s[0], t);
    }
  }

  lemma PrecedesAsymmetric(x: Scored, y: Scored)
    ensures !(Precedes(x, y) && Precedes(y, x))
  {
  }

  /** Two ranked permutations of the same entries start with the same entry. */
  lemma RankedSameHead(a: seq<Scored>, b: seq<Scored>)
    requires Ranked(a) && Ranked(b)
    requires multiset(a) == multiset(b)
    requires a != []
    ensures b != [] && a[0] == b[0]
  {
    assert a[0] in multiset(b);
    var k :| 0 <= k < |b| && b[k] == a[0];
    assert b[0] in multiset(a);
    var m :| 0 <= m < |a| && a[m] == b[0];
    assert k == 0 || Precedes(b[0], a[0]);
    assert m == 0 || Precedes(a[0], b[0]);
    PrecedesAsymmetric(a[0], b[0]);
  }

  lemma MultisetTail(a: seq<Scored>, b: seq<Scored>)
    requires a != [] && b != [] && a[0] == b[0]
    requires multiset(a) == multiset(b)
    ensures multiset(a[1..]) == multiset(b[1..])
  {
    assert a == [a[0]] + a[1..] && b == [b[0]] + b[1..];
    assert multiset(a[1..]) == multiset(a) - multiset{a[0]};
    assert multiset(b[1..]) == multiset(b) - multiset{a[0]};
  }

  /** Two ranked permutations of the same entries are equal: the ranking is
      fully determined, so it is exactly the output of Python's stable sort. */
  lemma {:induction false} RankedUnique(a: seq<Scored>, b: seq<Scored>)
    requires Ranked(a) && Ranked(b)
    requires multiset(a) == multiset(b)
    ensures a == b
  {
    if a == [] {
      assert |b| == |multiset(b)| == 0;
    } else {
      RankedSameHead(a, b);
      MultisetTail(a, b);
      RankedUnique(a[1..], b[1..]);
      assert a == [a[0]] + a[1..] && b == [b[0]] + b[1..];
    }
  }

  lemma SortFaithful(query: string, docs: seq<Document>, score: (string, string) -> real)
    ensures Faithful(Ranking(query, docs, score), query, docs, score)
  {
    var z := ScoreAll(query, docs, score);
    var r := Ranking(query, docs, score);
    forall k | 0 <= k < |r|
      ensures r[k].pos < |docs| && r[k].doc == docs[r[k].pos] && r[k].score == score(query, r[k].doc.pageContent)
    {
      assert r[k] in multiset(z);
      var m :| 0 <= m < |z| && z[m] == r[k];
    }
  }

  lemma RankingRanked(query: string, docs: seq<Document>, score: (string, string) -> real)
    ensures Ranked(Ranking(query, docs, score))
  {
    SortRanked(ScoreAll(query, docs, score));
  }

  // ---------------------------------------------------------------------------
  // Properties of rerank_documents

  /** The selection is a prefix of the full stable ranking: Python's sort is
      stable also with `reverse=True`, so among equal scores the input order
      is kept, and any ranked permutation of the scored documents is this one. */
  lemma RerankIsStableSortPrefix(query: string, docs: seq<Document>, score: (string, string) -> real,
                                 topK: int, other: seq<Scored>)
    requires docs != []
    requires Ranked(other) && multiset(other) == multiset(ScoreAll(query, docs, score))
    ensures var r := RerankDocuments(query, docs, score, topK);
            var top := other[..|r.selected|];
            r.selected == DocsOf(top) && r.origin == PositionsOf(top)
  {
    RankingRanked(query, docs, score);
    RankedUnique(Ranking(query, docs, score), other);
  }

  /** An empty input is returned as is, without consulting the cross-encoder;
      otherwise the cross-encoder is called exactly once, on every pair. With
      `top_k >= 0` the result has `min(top_k, len(docs))` documents. */
  lemma RerankSize(query: string, docs: seq<Document>, score: (string, string) -> real, topK: int)
    ensures var r := RerankDocuments(query, docs, score, topK);
            && (docs == [] <==> r.calls == [])
            && (docs == [] ==> r.selected == [])
            && (docs != [] ==> |r.calls| == 1 && r.calls[0].pairs == Pairs(query, docs))
            && (topK >= 0 ==> |r.selected| == (if topK < |docs| then topK else |docs|))
            && (topK < 0 ==> |r.selected| == (if |docs| + topK > 0 then |docs| + topK else 0))
  {
  }

  /** Without an explicit `top_k` at most three documents are kept: the three
      best, or all of them when there are fewer. */
  lemma RerankDefaultTopK(query: string, docs: seq<Document>, score: (string, string) -> real)
    ensures var r := RerankDocuments(query, docs, score);
            |r.selected| == (if |docs| < 3 then |docs| else 3)
  {
  }

  /** Every selected document is a document of the input, taken from the
      position recorded for it. */
  lemma RerankFromInput(query: string, docs: seq<Document>, score: (string, string) -> real, topK: int)
    ensures var r := RerankDocuments(query, docs, score, topK);
            forall i :: 0 <= i < |r.selected| ==> r.origin[i] < |docs| && docs[r.origin[i]] == r.selected[i]
  {
    if docs != [] {
      SortFaithful(query, docs, score);
    }
  }

  /** No document is selected more often than it occurs in the input. */
  lemma RerankSubBag(query: string, docs: seq<Document>, score: (string, string) -> real, topK: int)
    ensures multiset(RerankDocuments(query, docs, score, topK).selected) <= multiset(docs)
  {
    if docs != [] {
      var z := ScoreAll(query, docs, score);
      var ranked := Ranking(query, docs, score);
      var e := SliceStop(|ranked|, topK);
      assert DocsOf(z) == docs;
      assert DocsOf(ranked) == DocsOf(ranked[..e]) + DocsOf(ranked[e..]);
      assert multiset(DocsOf(ranked)) == multiset(DocsOf(ranked[..e])) + multiset(DocsOf(ranked[e..]));
    }
  }

  /** The selected documents come in non-increasing score order; equally
      scored documents keep their input order. */
  lemma RerankOrdered(query: string, docs: seq<Document>, score: (string, string) -> real, topK: int)
    ensures var r := RerankDocuments(query, docs, score, topK);
            forall i, j :: 0 <= i < j < |r.selected| ==>
              && score(query, r.selected[i].pageContent) >= score(query, r.selected[j].pageContent)
              && (score(query, r.selected[i].pageContent) == score(query, r.selected[j].pageContent)
                  ==> r.origin[i] < r.origin[j])
  {
    if docs != [] {
      SortFaithful(query, docs, score);
      RankingRanked(query, docs, score);
    }
  }

  /** Top-k dominance: a document that is not selected scores no higher than
      any document that is. */
  lemma RerankDominance(query: string, docs: seq<Document>, score: (string, string) -> real, topK: int)
    ensures var r := RerankDocuments(query, docs, score, topK);
            forall p, i :: 0 <= p < |docs| && p !in r.origin && 0 <= i < |r.selected| ==>
              score(query, docs[p].pageContent) <= score(query, r.selected[i].pageContent)
  {
    var r := RerankDocuments(query, docs, score, topK);
    if docs != [] {
      var z := ScoreAll(query, docs, score);
      var ranked := Ranking(query, docs, score);
      var e := SliceStop(|ranked|, topK);
      SortFaithful(query, docs, score);
      RankingRanked(query, docs, score);
      forall p, i | 0 <= p < |docs| && p !in r.origin && 0 <= i < |r.selected|
        ensures score(query, docs[p].pageContent) <= score(query, r.selected[i].pageContent)
      {
        assert z[p] in multiset(ranked);
        var m :| 0 <= m < |ranked| && ranked[m] == z[p];
        assert ranked[m].pos == p;
        assert forall q :: 0 <= q < e ==> r.origin[q] == ranked[q].pos;
        assert m >= e;
        assert Precedes(ranked[i], ranked[m]);
      }
    }
  }
}
