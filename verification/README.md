# Verified model of a small document-retrieval demo

This project models, in Dafny, the self-contained logic of a small
information-retrieval demo written in Python:

- **Evaluation** (`evaluation.dfy`, module `Evaluation`, from
  `src/evaluation.py`): the relevant-document set of a query built from the
  relevance judgments (qrels), precision and recall over sets of document
  ids, average precision computed by walking the ranked list, and the
  aggregation of `evaluar_sistema` into mean precision, mean recall and MAP.
  Every metric is a ratio of integers and is modelled exactly as a `real`.
  A retrieved document is represented by `getattr(doc, "doc_id", None)`:
  `Some(id)`, or `None` when the document has no id.
- **Retrieval** (`retrieval.dfy`, module `Retrieval`, from `src/ir.py`):
  `str.split()` with Python's whitespace set, `stem_doc`,
  `preprocess_corpus`, and `get_top_5_matched_documents`. The stemmer is an
  arbitrary function parameter. The similarity scores are an input
  sequence, and `np.argsort` is represented by its result: any permutation
  of the corpus indices that lists the scores in ascending order. The model
  promises nothing about the order of equal scores, because numpy's default
  sort is not stable. A reference insertion argsort (`ArgSortPrefix`) shows
  that such a permutation exists for every score list.
- **Document search** (`document_search.dfy`, module `DocumentSearch`, from
  `src/cli.py`): `buscar_documentos` (case-insensitive substring filter) and
  `obtener_fragmento` (a window of 30 characters on each side of the first
  case-insensitive match). Lowercasing is an arbitrary per-character map,
  so it never changes a string's length.
- `wrappers.dfy` (module `Wrappers`) holds the `Option` type, and
  `numbers.dfy` (module `Numbers`) the integer `Min` and `Max`.

The methods follow the loops of the source (`CollectRelevant`,
`AveragePrecision`, `EvaluateSystem`, `PreprocessCorpus`, `TopDocuments`)
and are proved against specification functions. The lemmas then prove the
properties of those functions.

The model follows the code in two places:

- A query with no relevant document is scored (0, 0, 0) and still counted in
  all three means. It is not excluded.
- Equal scores in the top-5 selection may come out in any order. They are
  not ordered by corpus index.

## Model

| member | source | states |
|---|---|---|
| `Evaluation.CollectRelevant` | src/evaluation.py:11-14 | the loop builds exactly the ids of judgments for the query with relevance > 0 |
| `Evaluation.RelevantSetIgnores` | src/evaluation.py:12-14 | inserting a judgment for another query, or with relevance <= 0, anywhere leaves the relevant set unchanged |
| `Evaluation.MetricsIgnoreIrrelevantJudgments` | src/evaluation.py:28-31 | such a judgment changes none of precision, recall or average precision |
| `Evaluation.Precision` | src/evaluation.py:15-19 | 0 with no relevant document or nothing retrieved, otherwise the relevant retrieved ids over the distinct retrieved ids (bounds in `PrecisionRecallBounds`) |
| `Evaluation.Recall` | src/evaluation.py:15-20 | 0 with no relevant document, otherwise the relevant retrieved ids over the relevant ids (bounds and the recall-1 case in the lemmas) |
| `Evaluation.PrecisionRecall` | src/evaluation.py:6-21 | returns precision = relevant-retrieved / distinct retrieved ids and recall = relevant-retrieved / relevant, both 0 with no relevant document, precision 0 with nothing retrieved |
| `Evaluation.PrecisionRecallBounds` | src/evaluation.py:17-20 | precision and recall both lie in [0, 1] |
| `Evaluation.PrecisionZero` | src/evaluation.py:15-19 | an empty relevant set gives (0, 0); nothing retrieved gives precision 0 |
| `Evaluation.RecallOneIff` | src/evaluation.py:18-20 | for a query with at least one relevant document, recall is 1 exactly when every relevant id is among the retrieved ids |
| `Evaluation.SameKeysSameScores` | src/evaluation.py:17-19 | retrieved lists with the same ids, in any order and with any duplicates, get the same precision and recall |
| `Evaluation.HitCount` | src/evaluation.py:36-38 | the number of hits never exceeds the number of ranked positions |
| `Evaluation.PrecisionSum` | src/evaluation.py:34-39 | the sum of hits-so-far / i over the 1-based positions i holding a relevant id (bounds in `PrecisionSumBounds`) |
| `Evaluation.AveragePrecisionOf` | src/evaluation.py:32-40 | 0 with no relevant document, otherwise the precision sum over the number of relevant ids (bounds in `AveragePrecisionBounds`) |
| `Evaluation.AveragePrecision` | src/evaluation.py:23-40 | the loop returns the sum of hits/i over 1-based hit positions i, divided by the number of relevant ids, or 0 with no relevant id |
| `Evaluation.PrecisionSumBounds` | src/evaluation.py:34-39 | the precision sum lies between 0 and the number of hits |
| `Evaluation.NoHitsNoSum` | src/evaluation.py:34-39 | with no relevant document retrieved, hits and the precision sum stay 0 |
| `Evaluation.AveragePrecisionNoHits` | src/evaluation.py:34-40 | average precision is 0 when no retrieved document is relevant |
| `Evaluation.HitCountDistinct` | src/evaluation.py:34-38 | with distinct retrieved ids, the hit count equals the number of relevant ids retrieved, so it is at most the number of relevant ids |
| `Evaluation.AveragePrecisionBounds` | src/evaluation.py:32-40 | average precision is >= 0, and <= 1 when the retrieved ids are pairwise distinct |
| `Evaluation.AveragePrecisionWithRepeats` | src/evaluation.py:36-40 | the bound needs distinct ids: a relevant document retrieved twice scores 2 |
| `Evaluation.WorkedExample` | src/evaluation.py:17-40 | relevant {doc1}, retrieved [doc2, doc1, doc3] gives precision 1/3, recall 1 and average precision 1/2 |
| `Evaluation.EvaluateSystem` | src/evaluation.py:57-76 | appends one (p, r, ap) per query, computed on the BM25 results for "BM25" and the cosine results otherwise, and returns the three means (sum/len, or 0 for no query) |
| `Evaluation.PerQueryEntries` | src/evaluation.py:61-72 | a query with no relevant document still has its entry, which is (0, 0, 0) |
| `Evaluation.PerQueryLength` | src/evaluation.py:61-72 | for any judgments and queries there is exactly one entry per query, in query order, holding that query's metrics |
| `Evaluation.Mean` | src/evaluation.py:74-76 | `sum(xs) / len(xs)`, or 0 for an empty list (bounds in `MeanBounds`) |
| `Evaluation.Evaluate` | src/evaluation.py:57-76 | the three means over the per-query entries (what `EvaluateSystem` is proved to return) |
| `Evaluation.EvaluateMeans` | src/evaluation.py:70-76 | with at least one query, each mean is the sum over all queries divided by the number of queries, so queries with no relevant document are counted |
| `Evaluation.SumBounds` | src/evaluation.py:74-76 | a sum of values in [0, 1] lies between 0 and the number of values |
| `Evaluation.NonNegativeMean` | src/evaluation.py:74-76 | the mean of non-negative values is non-negative |
| `Evaluation.MeanBounds` | src/evaluation.py:74-76 | the mean of values in [0, 1] lies in [0, 1], and the mean of no values is 0 |
| `Evaluation.EvaluateBounds` | src/evaluation.py:57-76 | mean precision and mean recall lie in [0, 1]; MAP is >= 0, and <= 1 when no result list repeats a document |
| `Retrieval.TokenEnd` | src/ir.py:26 | the longest whitespace-free prefix, ended by whitespace or by the end of the string |
| `Retrieval.Words` | src/ir.py:26 | `str.split()`: the maximal runs of non-whitespace characters, in order (properties in the lemmas below) |
| `Retrieval.WordsAreTokens` | src/ir.py:26 | every piece `split()` returns is non-empty and free of whitespace |
| `Retrieval.WordsKeepEveryCharacter` | src/ir.py:26 | the pieces, concatenated, are exactly the non-whitespace characters of the text, in order |
| `Retrieval.WordsEmptyIffBlank` | src/ir.py:26 | `split()` returns nothing exactly when the text is empty or all whitespace |
| `Retrieval.WordsOfJoin` | src/ir.py:26 | splitting space-joined tokens gives the tokens back |
| `Retrieval.WordsSkipBlank` | src/ir.py:26 | leading whitespace produces no token |
| `Retrieval.WordsTokenThen` | src/ir.py:26 | a token followed by whitespace or by the end of the text is split off whole |
| `Retrieval.WordsOfLayout` | src/ir.py:26 | tokens separated by any non-empty runs of whitespace, with any leading and trailing whitespace, split into exactly those tokens, in order |
| `Retrieval.StemDoc` | src/ir.py:20-26 | `stem_doc`: the stem of each piece of `split()`, in order |
| `Retrieval.StemDocOfLayout` | src/ir.py:20-26 | `stem_doc` gives one stem per whitespace-separated token, in order, whatever whitespace separates, precedes or follows the tokens |
| `Retrieval.StemDocTwoLines` | src/ir.py:20-26 | `stem_doc(a + "\n" + b + "\n")` is `[stem(a), stem(b)]` for tokens a and b |
| `Retrieval.StemDocOfJoin` | src/ir.py:20-26 | `stem_doc` of single-space-joined tokens gives one stem per token, in order |
| `Retrieval.StemDocBlank` | src/ir.py:20-26 | `stem_doc` of an empty or all-whitespace text is the empty list |
| `Retrieval.Join` | src/ir.py:31 | `sep.join(xs)`: the parts with one separator between each pair (length in `JoinLength`) |
| `Retrieval.JoinLength` | src/ir.py:31 | a join is as long as its parts plus one separator between each pair |
| `Retrieval.PreprocessCorpus` | src/ir.py:28-32 | one entry per corpus document, in order: the ", "-join of the stems of its text |
| `Retrieval.TopIndexes` | src/ir.py:50 | `order[-5:][::-1]` for the ascending ordering `order` (properties in the lemmas below) |
| `Retrieval.TopIndexesShape` | src/ir.py:50 | `argsort(...)[-5:][::-1]` has min(5, n) entries, the last entries of the ascending ordering read backwards |
| `Retrieval.TopIndexesDistinctValid` | src/ir.py:50 | the selected indices are distinct valid corpus indices |
| `Retrieval.TopIndexesNonIncreasing` | src/ir.py:50 | the selected indices come in non-increasing score order |
| `Retrieval.TopIndexesDominate` | src/ir.py:50 | no unselected document scores strictly higher than a selected one |
| `Retrieval.UnselectedBelow` | src/ir.py:50 | one unselected index scores no higher than one selected index |
| `Retrieval.TopDocuments` | src/ir.py:48-54 | returns min(5, n) documents, the k-th being the corpus document at the k-th selected index |
| `Retrieval.Insert` | src/ir.py:50 | inserting an index into an ascending ordering keeps it ascending, adds exactly that index and keeps indices distinct |
| `Retrieval.ArgSortPrefix` | src/ir.py:50 | lists every index below n exactly once, in ascending score order |
| `Retrieval.ArgSortExists` | src/ir.py:50 | every score list has an ascending argsort, so the top-5 selection is defined for every input |
| `DocumentSearch.FindFrom` | src/cli.py:77-78 | finds the leftmost occurrence at or after a start index, or reports that there is none |
| `DocumentSearch.FindFirst` | src/cli.py:77-78 | `in` holds exactly when there is an occurrence, and `index` returns the leftmost one |
| `DocumentSearch.Lowered` | src/cli.py:56 | `s.lower()`: the per-character map applied at every position, so the length is kept |
| `DocumentSearch.Matches` | src/cli.py:56 | `consulta.lower() in doc.lower()` |
| `DocumentSearch.SearchDocuments` | src/cli.py:54-58 | keeps exactly the documents whose lowered text contains the lowered query, with every matching occurrence, as a subsequence of the input, and no longer than it |
| `DocumentSearch.Fragment` | src/cli.py:69-81 | "" when the lowered query does not occur; otherwise `documento[max(0, i-30):min(len, i+len(consulta)+30)]` for the leftmost match i |
| `DocumentSearch.FragmentContainsMatch` | src/cli.py:77-80 | on a match the fragment contains the matched span at offset i - max(0, i-30), and the lowered span is the lowered query |
| `DocumentSearch.FragmentLength` | src/cli.py:77-81 | a fragment is at most len(consulta) + 60 characters long |
| `DocumentSearch.FragmentEmptyQuery` | src/cli.py:77-80 | an empty query matches at 0, so the fragment is the first min(len, 30) characters |

## Left out

- scikit-learn's `CountVectorizer` (fit, transform, its token pattern and the `STOPWORDS` list), `get_count_vectorizer`, `vectorize_query` and `cosine_similarity`: foreign library code with floating-point numerics; the similarity scores are an input.
- The nltk `SnowballStemmer`: a foreign algorithm, modelled as an arbitrary function from token to stem.
- `np.argsort` itself: its output is an input constrained to be an ascending ordering; the order numpy gives to equal scores is not modelled.
- Exact Unicode `str.lower()`: some characters change length when lowered; the model uses an arbitrary per-character map.
- BM25 retrieval (`get_documents_by_bm25`) and `get_documents_by_similitud_cosine`: imported from `ir` at src/evaluation.py:4, but src/ir.py does not define them, so there is no source to model; `EvaluateSystem` takes the two retrieval functions as parameters.
- Dataset loading through `ir_datasets` (`get_corpus`, `qrels_iter`, `queries_iter`): the corpus, judgments and queries are inputs.
- Pickle files and the `os.path.exists` guards (`preprocess`, `seeker`, the start of `evaluar_sistema`): file-system I/O.
- Printing: `documents_presentation` and the result lines of `evaluar_sistema`, which `EvaluateSystem` returns as a value instead.
- Floating-point rounding of the metrics: they are exact ratios here.
- In `src/cli.py`: `animar_texto`, `spinner`, `menu_principal`, `ingresar_consulta`, the constant list `preprocesar_documentos`, `tarea_busqueda`, the thread and `main`, and the `time.sleep` of `buscar_documentos`: terminal UI, concurrency and timing.
- `src/main.py`: a script around scikit-learn's newsgroup loader with no logic of its own.
