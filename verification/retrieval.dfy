/**
 * Corpus preprocessing and top-5 selection of the retrieval engine
 * (src/ir.py).
 *
 * The Snowball stemmer is an arbitrary function `stem` from a token to its
 * stem. The cosine similarities computed by scikit-learn are an input
 * sequence `scores` with one entry per corpus document, and `np.argsort`
 * is represented by its result `order`: any permutation of the corpus
 * indices that lists the scores in ascending order. Nothing is assumed
 * about how that permutation orders equal scores.
 */
module Retrieval {
  import opened Numbers

  /** A corpus record: its identifier and its raw text. */
  datatype Document = Document(docId: string, text: string)

  /** How many documents a search returns. */
  const TopK: nat := 5

  // ---------------------------------------------------------------------
  // Tokenising and stemming

  /** The characters for which Python's `str.isspace()` holds. */
  predicate IsSpace(c: char)
  {
    || ('\t' <= c <= '\r')               // tab, line feed, vertical tab, form feed, carriage return
    || ('\U{1c}' <= c <= '\U{1f}')        // file, group, record and unit separators
    || c == ' ' || c == '\U{85}' || c == '\U{a0}' || c == '\U{1680}'
    || ('\U{2000}' <= c <= '\U{200a}')
    || c == '\U{2028}' || c == '\U{2029}' || c == '\U{202f}' || c == '\U{205f}' || c == '\U{3000}'
  }

  /** A token of `str.split()`: non-empty and free of whitespace. */
  predicate IsToken(t: string)
  {
    t != [] && forall k :: 0 <= k < |t| ==> !IsSpace(t[k])
  }

  /** Length of the longest whitespace-free prefix of `s`. */
  function TokenEnd(s: string): (n: nat)
    ensures n <= |s|
    ensures forall k :: 0 <= k < n ==> !IsSpace(s[k])
    ensures n < |s| ==> IsSpace(s[n])
  {
    if s == [] || IsSpace(s[0]) then 0 else 1 + TokenEnd(s[1..])
  }

  /** `s.split()`: the maximal whitespace-free runs of `s`, in order. */
  function Words(s: string): (r: seq<string>)
    decreases |s|
  {
    if s == [] then []
    else if IsSpace(s[0]) then Words(s[1..])
    else
      var n := TokenEnd(s);
      [s[..n]] + Words(s[n..])
  }

  /** `stem_doc`: one stem per whitespace-separated token, in order. */
  function StemDoc(stem: string -> string, document: string): seq<string>
  {
    var words := Words(document);
    seq(|words|, i requires 0 <= i < |words| => stem(words[i]))
  }

  /** `sep.join(xs)`. */
  function Join(sep: string, xs: seq<string>): string
  {
    if xs == [] then ""
    else if |xs| == 1 then xs[0]
    else xs[0] + sep + Join(sep, xs[1..])
  }

  /** The characters of `s` that are not whitespace, in order. */
  function NonSpace(s: string): string
  {
    if s == [] then []
    else (if IsSpace(s[0]) then [] else [s[0]]) + NonSpace(s[1..])
  }

  /** The concatenation of a list of strings. */
  function Concat(xs: seq<string>): string
  {
    if xs == [] then "" else xs[0] + Concat(xs[1..])
  }

  /** Total length of a list of strings. */
  function TotalLength(xs: seq<string>): nat
  {
    if xs == [] then 0 else |xs[0]| + TotalLength(xs[1..])
  }

  /** Every piece `split()` returns is a token. */
  lemma {:induction false} WordsAreTokens(s: string)
    ensures forall i :: 0 <= i < |Words(s)| ==> IsToken(Words(s)[i])
    decreases |s|
  {
    if s == [] {
    } else if IsSpace(s[0]) {
      WordsAreTokens(s[1..]);
    } else {
      var n := TokenEnd(s);
      WordsAreTokens(s[n..]);
      assert Words(s) == [s[..n]] + Words(s[n..]);
    }
  }

  lemma {:induction false} NonSpaceAppend(a: string, b: string)
    ensures NonSpace(a + b) == NonSpace(a) + NonSpace(b)
    decreases |a|
  {
    if a == [] {
      assert a + b == b;
    } else {
      NonSpaceAppend(a[1..], b);
      assert (a + b)[0] == a[0] && (a + b)[1..] == a[1..] + b;
      calc {
        NonSpace(a + b);
        (if IsSpace(a[0]) then [] else [a[0]]) + NonSpace(a[1..] + b);
        (if IsSpace(a[0]) then [] else [a[0]]) + NonSpace(a[1..]) + NonSpace(b);
        NonSpace(a) + NonSpace(b);
      }
    }
  }

  lemma {:induction false} NonSpaceOfToken(t: string)
    requires forall k :: 0 <= k < |t| ==> !IsSpace(t[k])
    ensures NonSpace(t) == t
    decreases |t|
  {
    if t != [] {
      NonSpaceOfToken(t[1..]);
    }
  }

  /**
   * The tokens of `s`, glued back together, are exactly the non-whitespace
   * characters of `s`: splitting drops whitespace and nothing else.
   */
  lemma {:induction false} WordsKeepEveryCharacter(s: string)
    ensures Concat(Words(s)) == NonSpace(s)
    decreases |s|
  {
    if s == [] {
    } else if IsSpace(s[0]) {
      WordsKeepEveryCharacter(s[1..]);
    } else {
      var n := TokenEnd(s);
      WordsKeepEveryCharacter(s[n..]);
      NonSpaceOfToken(s[..n]);
      assert s == s[..n] + s[n..];
      NonSpaceAppend(s[..n], s[n..]);
      assert Words(s) == [s[..n]] + Words(s[n..]);
    }
  }

  /** `split()` returns no token exactly when `s` is empty or all whitespace. */
  lemma {:induction false} WordsEmptyIffBlank(s: string)
    ensures Words(s) == [] <==> forall k :: 0 <= k < |s| ==> IsSpace(s[k])
    decreases |s|
  {
    if s != [] {
      WordsEmptyIffBlank(s[1..]);
      if IsSpace(s[0]) {
        assert forall k :: 1 <= k < |s| ==> s[k] == s[1..][k - 1];
      }
    }
  }

  lemma {:induction false} TokenEndOfJoin(t: string, rest: string)
    requires forall k :: 0 <= k < |t| ==> !IsSpace(t[k])
    requires rest == [] || IsSpace(rest[0])
    ensures TokenEnd(t + rest) == |t|
    decreases |t|
  {
    if t != [] {
      TokenEndOfJoin(t[1..], rest);
      assert (t + rest)[1..] == t[1..] + rest;
    }
  }

  /** Joining tokens with a space and splitting again gives the tokens back. */
  lemma {:induction false} WordsOfJoin(ts: seq<string>)
    requires forall i :: 0 <= i < |ts| ==> IsToken(ts[i])
    ensures Words(Join(" ", ts)) == ts
    decreases |ts|
  {
    if ts == [] {
    } else if |ts| == 1 {
      TokenEndOfJoin(ts[0], "");
      assert ts[0] + "" == ts[0];
      assert ts[0][|ts[0]|..] == [];
    } else {
      var t, rest := ts[0], Join(" ", ts[1..]);
      var s := t + " " + rest;
      TokenEndOfJoin(t, " " + rest);
      assert s == t + (" " + rest);
      assert s[..|t|] == t;
      assert s[|t|..] == " " + rest;
      assert (" " + rest)[1..] == rest;
      WordsOfJoin(ts[1..]);
      assert ts == [t] + ts[1..];
    }
  }

  /** `w` is empty or consists of whitespace only. */
  predicate IsBlank(w: string)
  {
    forall k :: 0 <= k < |w| ==> IsSpace(w[k])
  }

  /** Leading whitespace produces no token. */
  lemma {:induction false} WordsSkipBlank(w: string, s: string)
    requires IsBlank(w)
    ensures Words(w + s) == Words(s)
    decreases |w|
  {
    if w != [] {
      assert (w + s)[0] == w[0] && (w + s)[1..] == w[1..] + s;
      WordsSkipBlank(w[1..], s);
    } else {
      assert w + s == s;
    }
  }

  /** A token followed by whitespace, or by the end, is split off whole. */
  lemma WordsTokenThen(t: string, s: string)
    requires IsToken(t)
    requires s == [] || IsSpace(s[0])
    ensures Words(t + s) == [t] + Words(s)
  {
    TokenEndOfJoin(t, s);
    var u := t + s;
    assert u[0] == t[0];
    assert u[..|t|] == t && u[|t|..] == s;
  }

  /**
   * The text `gaps[0] + ts[0] + gaps[1] + ... + ts[n-1] + gaps[n]`: tokens
   * separated by whitespace gaps.
   */
  function Layout(ts: seq<string>, gaps: seq<string>): string
    requires |gaps| == |ts| + 1
  {
    if ts == [] then gaps[0] else gaps[0] + ts[0] + Layout(ts[1..], gaps[1..])
  }

  /**
   * Tokens separated by any non-empty runs of whitespace, with any leading
   * and trailing whitespace, split back into exactly those tokens.
   */
  lemma {:induction false} WordsOfLayout(ts: seq<string>, gaps: seq<string>)
    requires |gaps| == |ts| + 1
    requires forall i :: 0 <= i < |ts| ==> IsToken(ts[i])
    requires forall i :: 0 <= i < |gaps| ==> IsBlank(gaps[i])
    requires forall i :: 0 < i < |ts| ==> gaps[i] != []
    ensures Words(Layout(ts, gaps)) == ts
    decreases |ts|
  {
    if ts == [] {
      WordsSkipBlank(gaps[0], "");
      assert gaps[0] + "" == gaps[0];
    } else {
      var rest := Layout(ts[1..], gaps[1..]);
      assert rest == [] || IsSpace(rest[0]) by {
        if ts[1..] == [] {
          assert rest == gaps[1];
          assert IsBlank(gaps[1]);
        } else {
          assert gaps[1] != [] && IsBlank(gaps[1]);
          assert rest[0] == gaps[1][0];
        }
      }
      WordsOfLayout(ts[1..], gaps[1..]);
      WordsTokenThen(ts[0], rest);
      assert gaps[0] + ts[0] + rest == gaps[0] + (ts[0] + rest);
      WordsSkipBlank(gaps[0], ts[0] + rest);
      assert ts == [ts[0]] + ts[1..];
    }
  }

  /**
   * `stem_doc` gives one stem per whitespace-separated token, in order,
   * whatever whitespace separates, precedes or follows the tokens.
   */
  lemma StemDocOfLayout(stem: string -> string, ts: seq<string>, gaps: seq<string>)
    requires |gaps| == |ts| + 1
    requires forall i :: 0 <= i < |ts| ==> IsToken(ts[i])
    requires forall i :: 0 <= i < |gaps| ==> IsBlank(gaps[i])
    requires forall i :: 0 < i < |ts| ==> gaps[i] != []
    ensures |StemDoc(stem, Layout(ts, gaps))| == |ts|
    ensures forall i :: 0 <= i < |ts| ==> StemDoc(stem, Layout(ts, gaps))[i] == stem(ts[i])
  {
    WordsOfLayout(ts, gaps);
  }

  /** For instance, two lines of one word each stem to two stems. */
  lemma StemDocTwoLines(stem: string -> string, a: string, b: string)
    requires IsToken(a) && IsToken(b)
    ensures StemDoc(stem, a + "\n" + b + "\n") == [stem(a), stem(b)]
  {
    var gaps := ["", "\n", "\n"];
    assert Layout([b], gaps[1..]) == "\n" + b + "\n" by {
      assert [b][1..] == [] && gaps[1..][1..] == ["\n"];
      assert Layout([], ["\n"]) == "\n";
    }
    assert [a, b][1..] == [b];
    assert Layout([a, b], gaps) == a + "\n" + b + "\n";
    StemDocOfLayout(stem, [a, b], gaps);
  }

  /** `stem_doc` of space-joined tokens stems each token, in order. */
  lemma StemDocOfJoin(stem: string -> string, ts: seq<string>)
    requires forall i :: 0 <= i < |ts| ==> IsToken(ts[i])
    ensures |StemDoc(stem, Join(" ", ts))| == |ts|
    ensures forall i :: 0 <= i < |ts| ==> StemDoc(stem, Join(" ", ts))[i] == stem(ts[i])
  {
    WordsOfJoin(ts);
  }

  /** `stem_doc` of an empty or all-whitespace document is the empty list. */
  lemma StemDocBlank(stem: string -> string, document: string)
    requires forall k :: 0 <= k < |document| ==> IsSpace(document[k])
    ensures StemDoc(stem, document) == []
  {
    WordsEmptyIffBlank(document);
  }

  /** Length of a join: the parts plus one separator between each pair. */
  lemma {:induction false} JoinLength(sep: string, xs: seq<string>)
    requires xs != []
    ensures |Join(sep, xs)| == TotalLength(xs) + |sep| * (|xs| - 1)
    decreases |xs|
  {
    if |xs| > 1 {
      JoinLength(sep, xs[1..]);
    }
  }

  /**
   * `preprocess_corpus`: for each document, in corpus order, the
   * `", "`-join of the stems of its text.
   */
  method PreprocessCorpus(stem: string -> string, corpus: seq<Document>) returns (docs: seq<string>)
    ensures |docs| == |corpus|
    ensures forall i :: 0 <= i < |corpus| ==> docs[i] == Join(", ", StemDoc(stem, corpus[i].text))
  {
    docs := [];
    for i := 0 to |corpus|
      invariant |docs| == i
      invariant forall k :: 0 <= k < i ==> docs[k] == Join(", ", StemDoc(stem, corpus[k].text))
    {
      docs := docs + [Join(", ", StemDoc(stem, corpus[i].text))];
    }
  }

  // ---------------------------------------------------------------------
  // Top-5 selection

  /** The indices in `order` are pairwise distinct. */
  predicate Distinct(order: seq<int>)
  {
    forall j, k :: 0 <= j < k < |order| ==> order[j] != order[k]
  }

  /** The scores of the indices in `order` do not decrease. */
  predicate SortedBy(scores: seq<real>, order: seq<int>)
    requires forall k :: 0 <= k < |order| ==> 0 <= order[k] < |scores|
  {
    forall j, k :: 0 <= j < k < |order| ==> scores[order[j]] <= scores[order[k]]
  }

  /**
   * What `np.argsort(scores)` returns: every index of `scores` exactly once,
   * listed by ascending score (equal scores in any order).
   */
  predicate IsAscendingArgsort(scores: seq<real>, order: seq<int>)
  {
    && |order| == |scores|
    && (forall k :: 0 <= k < |order| ==> 0 <= order[k] < |scores|)
    && (forall j :: 0 <= j < |scores| ==> j in order)
    && Distinct(order)
    && SortedBy(scores, order)
  }

  /** `s[::-1]`. */
  function Reverse<T>(s: seq<T>): (r: seq<T>)
    ensures |r| == |s|
    ensures forall k :: 0 <= k < |s| ==> r[k] == s[|s| - 1 - k]
  {
    seq(|s|, k requires 0 <= k < |s| => s[|s| - 1 - k])
  }

  /** `order[-5:][::-1]`: the last five entries of `order`, last first. */
  function TopIndexes(order: seq<int>): seq<int>
  {
    Reverse(order[Max(0, |order| - TopK)..])
  }

  /**
   * The selection has `min(5, n)` entries, which are the last entries of
   * the ascending ordering, read backwards.
   */
  lemma TopIndexesShape(order: seq<int>)
    ensures |TopIndexes(order)| == Min(TopK, |order|)
    ensures forall k :: 0 <= k < |TopIndexes(order)| ==> TopIndexes(order)[k] == order[|order| - 1 - k]
  {
  }

  /** The selected indices are distinct valid corpus indices. */
  lemma TopIndexesDistinctValid(scores: seq<real>, order: seq<int>)
    requires IsAscendingArgsort(scores, order)
    ensures forall k :: 0 <= k < |TopIndexes(order)| ==> 0 <= TopIndexes(order)[k] < |scores|
    ensures Distinct(TopIndexes(order))
  {
    var top, n := TopIndexes(order), |order|;
    TopIndexesShape(order);
    forall j, k | 0 <= j < k < |top| ensures top[j] != top[k] {
      assert top[j] == order[n - 1 - j] && top[k] == order[n - 1 - k];
    }
  }

  /** The selected indices come highest score first. */
  lemma TopIndexesNonIncreasing(scores: seq<real>, order: seq<int>)
    requires IsAscendingArgsort(scores, order)
    ensures forall j, k :: 0 <= j < k < |TopIndexes(order)| ==>
      scores[TopIndexes(order)[j]] >= scores[TopIndexes(order)[k]]
  {
    var top, n := TopIndexes(order), |order|;
    TopIndexesShape(order);
    forall j, k | 0 <= j < k < |top| ensures scores[top[j]] >= scores[top[k]] {
      assert top[j] == order[n - 1 - j] && top[k] == order[n - 1 - k];
    }
  }

  /** No unselected document scores strictly higher than a selected one. */
  lemma TopIndexesDominate(scores: seq<real>, order: seq<int>)
    requires IsAscendingArgsort(scores, order)
    ensures forall j, k :: 0 <= j < |scores| && j !in TopIndexes(order) && 0 <= k < |TopIndexes(order)| ==>
      scores[j] <= scores[TopIndexes(order)[k]]
  {
    forall j, k | 0 <= j < |scores| && j !in TopIndexes(order) && 0 <= k < |TopIndexes(order)|
      ensures scores[j] <= scores[TopIndexes(order)[k]]
    {
      UnselectedBelow(scores, order, j, k);
    }
  }

  lemma UnselectedBelow(scores: seq<real>, order: seq<int>, j: int, k: int)
    requires IsAscendingArgsort(scores, order)
    requires 0 <= j < |scores| && j !in TopIndexes(order) && 0 <= k < |TopIndexes(order)|
    ensures scores[j] <= scores[TopIndexes(order)[k]]
  {
    var top, n := TopIndexes(order), |order|;
    TopIndexesShape(order);
    assert j in order;
    var m :| 0 <= m < n && order[m] == j;
    assert forall i :: n - |top| <= i < n ==> order[i] == top[n - 1 - i];
    assert top[k] == order[n - 1 - k] && m < n - 1 - k;
    assert scores[order[m]] <= scores[order[n - 1 - k]];
  }

  /**
   * `get_top_5_matched_documents`: the corpus documents at the selected
   * indices, in selection order.
   */
  method TopDocuments<D>(corpus: seq<D>, scores: seq<real>, order: seq<int>) returns (documents: seq<D>)
    requires |scores| == |corpus|
    requires IsAscendingArgsort(scores, order)
    ensures |documents| == Min(TopK, |corpus|)
    ensures forall k :: 0 <= k < |documents| ==> documents[k] == corpus[TopIndexes(order)[k]]
  {
    var top := TopIndexes(order);
    TopIndexesShape(order);
    TopIndexesDistinctValid(scores, order);
    documents := [];
    for k := 0 to |top|
      invariant |documents| == k
      invariant forall m :: 0 <= m < k ==> documents[m] == corpus[top[m]]
    {
      documents := documents + [corpus[top[k]]];
    }
  }

  // ---------------------------------------------------------------------
  // A reference argsort: an ascending ordering exists for every score list

  /** Insert index `x` into an ascending ordering, after no larger score. */
  function Insert(scores: seq<real>, order: seq<int>, x: int): (r: seq<int>)
    requires 0 <= x < |scores|
    requires forall k :: 0 <= k < |order| ==> 0 <= order[k] < |scores|
    requires SortedBy(scores, order)
    ensures |r| == |order| + 1
    ensures forall k :: 0 <= k < |r| ==> 0 <= r[k] < |scores|
    ensures forall v :: v in r <==> v in order || v == x
    ensures r[0] == x || (order != [] && r[0] == order[0])
    ensures SortedBy(scores, r)
    ensures Distinct(order) && x !in order ==> Distinct(r)
  {
    if order == [] || scores[x] <= scores[order[0]] then [x] + order
    else
      var rest := Insert(scores, order[1..], x);
      assert Distinct(order) ==> order[0] !in order[1..];
      assert Distinct(order) && x !in order ==> order[0] !in rest;
      [order[0]] + rest
  }

  /** An ascending ordering of the indices `0 .. n-1`. */
  function ArgSortPrefix(scores: seq<real>, n: nat): (r: seq<int>)
    requires n <= |scores|
    ensures |r| == n
    ensures forall k :: 0 <= k < |r| ==> 0 <= r[k] < n
    ensures forall j :: 0 <= j < n ==> j in r
    ensures Distinct(r)
    ensures SortedBy(scores, r)
  {
    if n == 0 then []
    else
      var r := Insert(scores, ArgSortPrefix(scores, n - 1), n - 1);
      assert forall k :: 0 <= k < |r| ==> r[k] in r;
      r
  }

  /** Every score list has an ascending argsort. */
  lemma ArgSortExists(scores: seq<real>)
    ensures IsAscendingArgsort(scores, ArgSortPrefix(scores, |scores|))
  {
  }
}
