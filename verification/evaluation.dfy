/**
 * Evaluation of the retrieval engine against relevance judgments
 * (src/evaluation.py): precision, recall, average precision per query and
 * their means over all queries.
 *
 * A retrieved document is represented by the value of
 * `getattr(doc, "doc_id", None)`: `Some(id)`, or `None` for a document that
 * has no `doc_id`. All metrics are ratios of integers, so they are exact
 * reals here.
 */
module Evaluation {
  import opened Wrappers

  /** One relevance judgment (a qrel). */
  datatype Judgment = Judgment(queryId: string, docId: string, relevance: int)

  /** A query of the dataset. */
  datatype Query = Query(queryId: string, text: string)

  /** The `doc_id` of a retrieved document, if it has one. */
  type DocKey = Option<string>

  /** The three metrics of one query. */
  datatype Metrics = Metrics(precision: real, recall: real, averagePrecision: real)

  /** What `evaluar_sistema` reports. */
  datatype Summary = Summary(meanPrecision: real, meanRecall: real, meanAveragePrecision: real)

  // ---------------------------------------------------------------------
  // Relevant documents

  /** A judgment marks a document relevant for `queryId`. */
  predicate JudgesRelevant(qrel: Judgment, queryId: string)
  {
    qrel.queryId == queryId && qrel.relevance > 0
  }

  /** The ids of the documents judged relevant (relevance > 0) for `queryId`. */
  function RelevantSet(qrels: seq<Judgment>, queryId: string): set<string>
  {
    set qrel | qrel in qrels && JudgesRelevant(qrel, queryId) :: qrel.docId
  }

  /** The loop of `precision_recall` and `average_precision` building `relevantes`. */
  method CollectRelevant(qrels: seq<Judgment>, queryId: string) returns (relevantes: set<string>)
    ensures relevantes == RelevantSet(qrels, queryId)
  {
    relevantes := {};
    for i := 0 to |qrels|
      invariant relevantes == RelevantSet(qrels[..i], queryId)
    {
      var qrel := qrels[i];
      assert qrels[..i + 1] == qrels[..i] + [qrel];
      if qrel.queryId == queryId && qrel.relevance > 0 {
        relevantes := relevantes + {qrel.docId};
      }
    }
    assert qrels[..|qrels|] == qrels;
  }

  /**
   * A judgment for another query, or with relevance <= 0, can be added
   * anywhere without changing the relevant set.
   */
  lemma RelevantSetIgnores(before: seq<Judgment>, qrel: Judgment, after: seq<Judgment>, queryId: string)
    requires !JudgesRelevant(qrel, queryId)
    ensures RelevantSet(before + [qrel] + after, queryId) == RelevantSet(before + after, queryId)
  {
    var s, t := before + [qrel] + after, before + after;
    forall d | d in RelevantSet(s, queryId) ensures d in RelevantSet(t, queryId) {
      var q :| q in s && JudgesRelevant(q, queryId) && q.docId == d;
      assert q in t;
    }
    forall d | d in RelevantSet(t, queryId) ensures d in RelevantSet(s, queryId) {
      var q :| q in t && JudgesRelevant(q, queryId) && q.docId == d;
      assert q in s;
    }
  }

  // ---------------------------------------------------------------------
  // Precision and recall

  /** `recuperados`: the distinct keys of the retrieved documents. */
  function RetrievedKeys(retrieved: seq<DocKey>): set<DocKey>
  {
    set k | k in retrieved
  }

  /** `relevantes & recuperados`. */
  function RelevantRetrieved(relevantes: set<string>, retrieved: seq<DocKey>): set<string>
  {
    set d | d in relevantes && Some(d) in RetrievedKeys(retrieved)
  }

  function Precision(relevantes: set<string>, retrieved: seq<DocKey>): real
  {
    if relevantes == {} || RetrievedKeys(retrieved) == {} then 0.0
    else |RelevantRetrieved(relevantes, retrieved)| as real / |RetrievedKeys(retrieved)| as real
  }

  function Recall(relevantes: set<string>, retrieved: seq<DocKey>): real
  {
    if relevantes == {} then 0.0
    else |RelevantRetrieved(relevantes, retrieved)| as real / |relevantes| as real
  }

  /** `precision_recall`, with the judgments as an input. */
  method PrecisionRecall(qrels: seq<Judgment>, queryId: string, retrieved: seq<DocKey>)
    returns (precision: real, recall: real)
    ensures precision == Precision(RelevantSet(qrels, queryId), retrieved)
    ensures recall == Recall(RelevantSet(qrels, queryId), retrieved)
  {
    var relevantes := CollectRelevant(qrels, queryId);
    if relevantes == {} {
      return 0.0, 0.0;
    }
    var recuperados := set k | k in retrieved;
    var recuperadosRelevantes := |set d | d in relevantes && Some(d) in recuperados|;
    precision := if recuperados != {} then recuperadosRelevantes as real / |recuperados| as real else 0.0;
    recall := recuperadosRelevantes as real / |relevantes| as real;
  }

  /** Set `a` maps injectively into `b` by `Some`, so it is no larger. */
  lemma {:induction false} CardinalityOfSome(a: set<string>, b: set<DocKey>)
    requires forall d :: d in a ==> Some(d) in b
    ensures |a| <= |b|
    decreases |a|
  {
    if a != {} {
      var d :| d in a;
      CardinalityOfSome(a - {d}, b - {Some(d)});
    }
  }

  /** A subset of equal size is the whole set. */
  lemma SubsetOfSameSize(a: set<string>, b: set<string>)
    requires a <= b && |a| == |b|
    ensures a == b
  {
    assert b == a + (b - a);
    assert |b - a| == 0;
  }

  lemma Ratio(x: nat, y: nat)
    requires x <= y && 0 < y
    ensures 0.0 <= x as real / y as real <= 1.0
    ensures x as real / y as real == 1.0 <==> x == y
  {
    RealRatio(x as real, y as real);
  }

  lemma RealRatio(x: real, y: real)
    requires 0.0 <= x <= y && 0.0 < y
    ensures 0.0 <= x / y <= 1.0
    ensures x / y == 1.0 <==> x == y
  {
  }

  /** A subset is no larger than its superset. */
  lemma SubsetSize<T>(a: set<T>, b: set<T>)
    requires a <= b
    ensures |a| <= |b|
  {
    assert b == a + (b - a);
  }

  /** Precision and recall are ratios in [0, 1]. */
  lemma PrecisionRecallBounds(relevantes: set<string>, retrieved: seq<DocKey>)
    ensures 0.0 <= Precision(relevantes, retrieved) <= 1.0
    ensures 0.0 <= Recall(relevantes, retrieved) <= 1.0
  {
    var hits, keys := RelevantRetrieved(relevantes, retrieved), RetrievedKeys(retrieved);
    CardinalityOfSome(hits, keys);
    SubsetSize(hits, relevantes);
    if relevantes != {} {
      Ratio(|hits|, |relevantes|);
      if keys != {} {
        Ratio(|hits|, |keys|);
      }
    }
  }

  /** With no relevant document, or nothing retrieved, precision is 0. */
  lemma PrecisionZero(relevantes: set<string>, retrieved: seq<DocKey>)
    requires relevantes == {} || retrieved == []
    ensures Precision(relevantes, retrieved) == 0.0
    ensures relevantes == {} ==> Recall(relevantes, retrieved) == 0.0
  {
  }

  /**
   * Recall is 1 exactly when every relevant id is among the retrieved ids
   * (for a query with at least one relevant document).
   */
  lemma RecallOneIff(relevantes: set<string>, retrieved: seq<DocKey>)
    requires relevantes != {}
    ensures Recall(relevantes, retrieved) == 1.0 <==> forall d :: d in relevantes ==> Some(d) in retrieved
  {
    var hits := RelevantRetrieved(relevantes, retrieved);
    SubsetSize(hits, relevantes);
    Ratio(|hits|, |relevantes|);
    if |hits| == |relevantes| {
      SubsetOfSameSize(hits, relevantes);
    }
    if forall d :: d in relevantes ==> Some(d) in retrieved {
      assert hits == relevantes;
    }
  }

  /**
   * Only the set of retrieved ids matters: two retrieved lists holding the
   * same ids (in any order, with any repetitions) score the same.
   */
  lemma SameKeysSameScores(relevantes: set<string>, a: seq<DocKey>, b: seq<DocKey>)
    requires forall k :: k in a <==> k in b
    ensures Precision(relevantes, a) == Precision(relevantes, b)
    ensures Recall(relevantes, a) == Recall(relevantes, b)
  {
    assert RetrievedKeys(a) == RetrievedKeys(b);
  }

  // ---------------------------------------------------------------------
  // Average precision

  /** A retrieved document counts as a hit when its id is relevant. */
  predicate IsHit(relevantes: set<string>, key: DocKey)
  {
    key.Some? && key.value in relevantes
  }

  /** Number of positions of `ranked` that hold a hit. */
  function HitCount(relevantes: set<string>, ranked: seq<DocKey>): (n: nat)
    ensures n <= |ranked|
  {
    if ranked == [] then 0
    else HitCount(relevantes, ranked[..|ranked| - 1]) + (if IsHit(relevantes, ranked[|ranked| - 1]) then 1 else 0)
  }

  /** Sum of `hits / i` over the 1-based positions `i` of `ranked` that hold a hit. */
  function PrecisionSum(relevantes: set<string>, ranked: seq<DocKey>): real
  {
    if ranked == [] then 0.0
    else
      PrecisionSum(relevantes, ranked[..|ranked| - 1]) +
      (if IsHit(relevantes, ranked[|ranked| - 1]) then HitCount(relevantes, ranked) as real / |ranked| as real else 0.0)
  }

  function AveragePrecisionOf(relevantes: set<string>, ranked: seq<DocKey>): real
  {
    if relevantes == {} then 0.0 else PrecisionSum(relevantes, ranked) / |relevantes| as real
  }

  /** `average_precision`, with the judgments as an input. */
  method AveragePrecision(qrels: seq<Judgment>, queryId: string, retrieved: seq<DocKey>) returns (ap: real)
    ensures ap == AveragePrecisionOf(RelevantSet(qrels, queryId), retrieved)
  {
    var relevantes := CollectRelevant(qrels, queryId);
    if relevantes == {} {
      return 0.0;
    }
    var hits := 0;
    var sumPrecisions := 0.0;
    for i := 1 to |retrieved| + 1
      invariant hits == HitCount(relevantes, retrieved[..i - 1])
      invariant sumPrecisions == PrecisionSum(relevantes, retrieved[..i - 1])
    {
      var doc := retrieved[i - 1];
      assert retrieved[..i][..i - 1] == retrieved[..i - 1];
      if doc.Some? && doc.value in relevantes {
        hits := hits + 1;
        sumPrecisions := sumPrecisions + hits as real / i as real;
      }
    }
    assert retrieved[..|retrieved|] == retrieved;
    ap := sumPrecisions / |relevantes| as real;
  }

  /** The precision sum is between 0 and the number of hits. */
  lemma {:induction false} PrecisionSumBounds(relevantes: set<string>, ranked: seq<DocKey>)
    ensures 0.0 <= PrecisionSum(relevantes, ranked) <= HitCount(relevantes, ranked) as real
    decreases |ranked|
  {
    if ranked != [] {
      PrecisionSumBounds(relevantes, ranked[..|ranked| - 1]);
      Ratio(HitCount(relevantes, ranked), |ranked|);
    }
  }

  /** With no hit at all, both the precision sum and the hit count are 0. */
  lemma {:induction false} NoHitsNoSum(relevantes: set<string>, ranked: seq<DocKey>)
    requires forall k :: 0 <= k < |ranked| ==> !IsHit(relevantes, ranked[k])
    ensures HitCount(relevantes, ranked) == 0 && PrecisionSum(relevantes, ranked) == 0.0
    decreases |ranked|
  {
    if ranked != [] {
      NoHitsNoSum(relevantes, ranked[..|ranked| - 1]);
    }
  }

  /** Average precision is 0 when no retrieved document is relevant. */
  lemma AveragePrecisionNoHits(relevantes: set<string>, ranked: seq<DocKey>)
    requires forall k :: 0 <= k < |ranked| ==> !IsHit(relevantes, ranked[k])
    ensures AveragePrecisionOf(relevantes, ranked) == 0.0
  {
    NoHitsNoSum(relevantes, ranked);
  }

  /** The keys of `ranked` are pairwise distinct. */
  predicate DistinctKeys(ranked: seq<DocKey>)
  {
    forall j, k :: 0 <= j < k < |ranked| ==> ranked[j] != ranked[k]
  }

  /**
   * Without repetitions, the hits of the ranked walk are exactly the
   * relevant ids that were retrieved, so they number at most |relevantes|.
   */
  lemma {:induction false} HitCountDistinct(relevantes: set<string>, ranked: seq<DocKey>)
    requires DistinctKeys(ranked)
    ensures HitCount(relevantes, ranked) == |RelevantRetrieved(relevantes, ranked)|
    ensures HitCount(relevantes, ranked) <= |relevantes|
    decreases |ranked|
  {
    if ranked == [] {
      assert RelevantRetrieved(relevantes, ranked) == {};
    } else {
      var front, last := ranked[..|ranked| - 1], ranked[|ranked| - 1];
      HitCountDistinct(relevantes, front);
      assert ranked == front + [last];
      assert last !in front;
      var old_, new_ := RelevantRetrieved(relevantes, front), RelevantRetrieved(relevantes, ranked);
      if IsHit(relevantes, last) {
        assert new_ == old_ + {last.value};
        assert last.value !in old_;
      } else {
        assert new_ == old_;
      }
    }
    SubsetSize(RelevantRetrieved(relevantes, ranked), relevantes);
  }

  /** Average precision is at least 0, and at most 1 when no document is retrieved twice. */
  lemma AveragePrecisionBounds(relevantes: set<string>, ranked: seq<DocKey>)
    ensures 0.0 <= AveragePrecisionOf(relevantes, ranked)
    ensures DistinctKeys(ranked) ==> AveragePrecisionOf(relevantes, ranked) <= 1.0
  {
    PrecisionSumBounds(relevantes, ranked);
    if relevantes != {} && DistinctKeys(ranked) {
      HitCountDistinct(relevantes, ranked);
      RealRatio(PrecisionSum(relevantes, ranked), |relevantes| as real);
    }
  }

  /** The bound needs distinct ids: a relevant document retrieved twice scores 2. */
  lemma AveragePrecisionWithRepeats()
    ensures AveragePrecisionOf({"d"}, [Some("d"), Some("d")]) == 2.0
  {
    var r: seq<DocKey> := [Some("d"), Some("d")];
    assert r[..1] == [Some("d")] && r[..1][..0] == [];
    assert HitCount({"d"}, r[..1]) == 1;
    assert HitCount({"d"}, r) == 2;
    assert PrecisionSum({"d"}, r[..1]) == 1.0;
  }

  /** relevant {doc1}, retrieved [doc2, doc1, doc3]: precision 1/3, recall 1, AP 1/2. */
  lemma WorkedExample()
    ensures var rel, r := {"doc1"}, [Some("doc2"), Some("doc1"), Some("doc3")];
      && Precision(rel, r) == 1.0 / 3.0
      && Recall(rel, r) == 1.0
      && AveragePrecisionOf(rel, r) == 0.5
  {
    var rel, r: seq<DocKey> := {"doc1"}, [Some("doc2"), Some("doc1"), Some("doc3")];
    assert RetrievedKeys(r) == {Some("doc2"), Some("doc1"), Some("doc3")};
    assert RelevantRetrieved(rel, r) == {"doc1"};
    assert r[..2] == [Some("doc2"), Some("doc1")] && r[..2][..1] == [Some("doc2")] && r[..2][..1][..0] == [];
    assert HitCount(rel, r[..2][..1]) == 0;
    assert HitCount(rel, r[..2]) == 1;
    assert PrecisionSum(rel, r[..2][..1]) == 0.0;
    assert PrecisionSum(rel, r[..2]) == 0.5;
  }

  // ---------------------------------------------------------------------
  // Aggregation over the queries

  /** The metrics of one query against the documents retrieved for it. */
  function QueryMetrics(qrels: seq<Judgment>, queryId: string, retrieved: seq<DocKey>): Metrics
  {
    var relevantes := RelevantSet(qrels, queryId);
    Metrics(Precision(relevantes, retrieved), Recall(relevantes, retrieved), AveragePrecisionOf(relevantes, retrieved))
  }

  /** The retrieval function chosen by `metodo`: BM25 for "BM25", cosine for anything else. */
  function Retriever(metodo: string, bm25: string -> seq<DocKey>, cosine: string -> seq<DocKey>): string -> seq<DocKey>
  {
    if metodo == "BM25" then bm25 else cosine
  }

  /** One entry per query, in query order. */
  function PerQuery(qrels: seq<Judgment>, queries: seq<Query>, search: string -> seq<DocKey>): seq<Metrics>
  {
    seq(|queries|, k requires 0 <= k < |queries| => QueryMetrics(qrels, queries[k].queryId, search(queries[k].text)))
  }

  function Precisions(ms: seq<Metrics>): seq<real> { seq(|ms|, k requires 0 <= k < |ms| => ms[k].precision) }
  function Recalls(ms: seq<Metrics>): seq<real> { seq(|ms|, k requires 0 <= k < |ms| => ms[k].recall) }
  function AveragePrecisions(ms: seq<Metrics>): seq<real> { seq(|ms|, k requires 0 <= k < |ms| => ms[k].averagePrecision) }

  /** Python's `sum`. */
  function Sum(xs: seq<real>): real
  {
    if xs == [] then 0.0 else Sum(xs[..|xs| - 1]) + xs[|xs| - 1]
  }

  /** `sum(xs) / len(xs) if xs else 0.0`. */
  function Mean(xs: seq<real>): real
  {
    if xs == [] then 0.0 else Sum(xs) / |xs| as real
  }

  /** The means `evaluar_sistema` reports for the given retrieval function. */
  function Evaluate(qrels: seq<Judgment>, queries: seq<Query>, search: string -> seq<DocKey>): Summary
  {
    var ms := PerQuery(qrels, queries, search);
    Summary(Mean(Precisions(ms)), Mean(Recalls(ms)), Mean(AveragePrecisions(ms)))
  }

  /**
   * The aggregation loop and means of `evaluar_sistema`: one
   * (precision, recall, AP) triple appended per query, then the three means.
   */
  method EvaluateSystem(qrels: seq<Judgment>, queries: seq<Query>, metodo: string,
                        bm25: string -> seq<DocKey>, cosine: string -> seq<DocKey>)
    returns (summary: Summary)
    ensures summary == Evaluate(qrels, queries, Retriever(metodo, bm25, cosine))
  {
    var precisiones: seq<real> := [];
    var recalls: seq<real> := [];
    var averagePrecisions: seq<real> := [];
    ghost var ms := PerQuery(qrels, queries, Retriever(metodo, bm25, cosine));
    for i := 0 to |queries|
      invariant precisiones == Precisions(ms)[..i]
      invariant recalls == Recalls(ms)[..i]
      invariant averagePrecisions == AveragePrecisions(ms)[..i]
    {
      var query := queries[i];
      var retrieved := if metodo == "BM25" then bm25(query.text) else cosine(query.text);
      var p, r := PrecisionRecall(qrels, query.queryId, retrieved);
      var ap := AveragePrecision(qrels, query.queryId, retrieved);
      assert ms[i] == Metrics(p, r, ap);
      assert Precisions(ms)[..i + 1] == Precisions(ms)[..i] + [p];
      assert Recalls(ms)[..i + 1] == Recalls(ms)[..i] + [r];
      assert AveragePrecisions(ms)[..i + 1] == AveragePrecisions(ms)[..i] + [ap];
      precisiones := precisiones + [p];
      recalls := recalls + [r];
      averagePrecisions := averagePrecisions + [ap];
    }
    assert Precisions(ms)[..|queries|] == Precisions(ms);
    assert Recalls(ms)[..|queries|] == Recalls(ms);
    assert AveragePrecisions(ms)[..|queries|] == AveragePrecisions(ms);
    var meanPrecision := if precisiones != [] then Sum(precisiones) / |precisiones| as real else 0.0;
    var meanRecall := if recalls != [] then Sum(recalls) / |recalls| as real else 0.0;
    var map_ := if averagePrecisions != [] then Sum(averagePrecisions) / |averagePrecisions| as real else 0.0;
    summary := Summary(meanPrecision, meanRecall, map_);
  }

  /**
   * Every query gets exactly one entry; a query with no relevant document
   * is not skipped but scores 0 on all three metrics.
   */
  lemma PerQueryEntries(qrels: seq<Judgment>, queries: seq<Query>, search: string -> seq<DocKey>, k: int)
    requires 0 <= k < |queries|
    requires RelevantSet(qrels, queries[k].queryId) == {}
    ensures |PerQuery(qrels, queries, search)| == |queries|
    ensures PerQuery(qrels, queries, search)[k] == Metrics(0.0, 0.0, 0.0)
  {
  }

  /** `evaluar_sistema` scores every query: one entry per query, in query order. */
  lemma PerQueryLength(qrels: seq<Judgment>, queries: seq<Query>, search: string -> seq<DocKey>)
    ensures |PerQuery(qrels, queries, search)| == |queries|
    ensures forall k :: 0 <= k < |queries| ==>
      PerQuery(qrels, queries, search)[k] == QueryMetrics(qrels, queries[k].queryId, search(queries[k].text))
  {
  }

  /**
   * Each mean divides the sum over all queries by the number of queries,
   * so queries with no relevant document count in the denominator.
   */
  lemma EvaluateMeans(qrels: seq<Judgment>, queries: seq<Query>, search: string -> seq<DocKey>)
    requires queries != []
    ensures var ms, s := PerQuery(qrels, queries, search), Evaluate(qrels, queries, search);
      && s.meanPrecision == Sum(Precisions(ms)) / |queries| as real
      && s.meanRecall == Sum(Recalls(ms)) / |queries| as real
      && s.meanAveragePrecision == Sum(AveragePrecisions(ms)) / |queries| as real
  {
  }

  /** A sum of values in [0, 1] lies between 0 and the number of values. */
  lemma {:induction false} SumBounds(xs: seq<real>)
    requires forall k :: 0 <= k < |xs| ==> 0.0 <= xs[k] <= 1.0
    ensures 0.0 <= Sum(xs) <= |xs| as real
    decreases |xs|
  {
    if xs != [] {
      SumBounds(xs[..|xs| - 1]);
    }
  }

  /** The mean of values in [0, 1] lies in [0, 1]; the mean of nothing is 0. */
  lemma MeanBounds(xs: seq<real>)
    requires forall k :: 0 <= k < |xs| ==> 0.0 <= xs[k] <= 1.0
    ensures 0.0 <= Mean(xs) <= 1.0
    ensures xs == [] ==> Mean(xs) == 0.0
  {
    SumBounds(xs);
    if xs != [] {
      RealRatio(Sum(xs), |xs| as real);
    }
  }

  /**
   * Mean precision and mean recall lie in [0, 1]; so does MAP when no
   * retrieval result holds the same document twice.
   */
  lemma EvaluateBounds(qrels: seq<Judgment>, queries: seq<Query>, search: string -> seq<DocKey>)
    ensures var s := Evaluate(qrels, queries, search);
      0.0 <= s.meanPrecision <= 1.0 && 0.0 <= s.meanRecall <= 1.0 && 0.0 <= s.meanAveragePrecision
    ensures (forall k :: 0 <= k < |queries| ==> DistinctKeys(search(queries[k].text))) ==>
      Evaluate(qrels, queries, search).meanAveragePrecision <= 1.0
  {
    var ms := PerQuery(qrels, queries, search);
    forall k | 0 <= k < |queries|
      ensures 0.0 <= Precisions(ms)[k] <= 1.0 && 0.0 <= Recalls(ms)[k] <= 1.0
      ensures 0.0 <= AveragePrecisions(ms)[k]
      ensures DistinctKeys(search(queries[k].text)) ==> AveragePrecisions(ms)[k] <= 1.0
    {
      var rel, r := RelevantSet(qrels, queries[k].queryId), search(queries[k].text);
      PrecisionRecallBounds(rel, r);
      AveragePrecisionBounds(rel, r);
    }
    MeanBounds(Precisions(ms));
    MeanBounds(Recalls(ms));
    NonNegativeMean(AveragePrecisions(ms));
    if forall k :: 0 <= k < |queries| ==> DistinctKeys(search(queries[k].text)) {
      MeanBounds(AveragePrecisions(ms));
    }
  }

  lemma {:induction false} NonNegativeMean(xs: seq<real>)
    requires forall k :: 0 <= k < |xs| ==> 0.0 <= xs[k]
    ensures 0.0 <= Sum(xs) && 0.0 <= Mean(xs)
    decreases |xs|
  {
    if xs != [] {
      NonNegativeMean(xs[..|xs| - 1]);
    }
  }

  /**
   * Judgments for other queries, or with relevance <= 0, change no metric
   * of any query.
   */
  lemma MetricsIgnoreIrrelevantJudgments(before: seq<Judgment>, qrel: Judgment, after: seq<Judgment>,
                                         queryId: string, retrieved: seq<DocKey>)
    requires !JudgesRelevant(qrel, queryId)
    ensures QueryMetrics(before + [qrel] + after, queryId, retrieved) == QueryMetrics(before + after, queryId, retrieved)
  {
    RelevantSetIgnores(before, qrel, after, queryId);
  }
}
