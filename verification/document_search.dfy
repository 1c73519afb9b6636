/**
 * The two string helpers of the command-line front end (src/cli.py):
 * case-insensitive filtering of a document list and the text window
 * shown for each match.
 *
 * Python's `str.lower()` is modelled by an arbitrary per-character map
 * `lower`, applied position by position, so lowering never changes the
 * length of a string.
 */
module DocumentSearch {
  import opened Wrappers
  import opened Numbers

  /** Number of characters kept on each side of a match in a fragment. */
  const Context: nat := 30

  /** `s.lower()`: `lower` applied to every character. */
  function Lowered(lower: char -> char, s: string): (r: string)
    ensures |r| == |s|
    ensures forall i :: 0 <= i < |s| ==> r[i] == lower(s[i])
  {
    seq(|s|, i requires 0 <= i < |s| => lower(s[i]))
  }

  /** `pat` occurs in `text` starting at index `i`. */
  predicate MatchAt(text: string, pat: string, i: int)
  {
    0 <= i && i + |pat| <= |text| && text[i..i + |pat|] == pat
  }

  /** `pat in text` in Python. */
  ghost predicate Occurs(text: string, pat: string)
  {
    exists i :: MatchAt(text, pat, i)
  }

  /** `i` is the leftmost occurrence of `pat` in `text`. */
  ghost predicate FirstMatch(text: string, pat: string, i: int)
  {
    MatchAt(text, pat, i) && forall j :: 0 <= j < i ==> !MatchAt(text, pat, j)
  }

  /** Leftmost occurrence of `pat` in `text` at index `from` or later. */
  function FindFrom(text: string, pat: string, from: nat): (r: Option<nat>)
    decreases |text| - from
    ensures r.Some? ==> from <= r.value && MatchAt(text, pat, r.value)
    ensures r.Some? ==> forall j :: from <= j < r.value ==> !MatchAt(text, pat, j)
    ensures r.None? ==> forall j :: from <= j ==> !MatchAt(text, pat, j)
  {
    if from + |pat| > |text| then None
    else if text[from..from + |pat|] == pat then Some(from)
    else FindFrom(text, pat, from + 1)
  }

  /**
   * `text.index(pat)` when `pat in text`, and None otherwise: the leftmost
   * occurrence, found exactly when there is one.
   */
  function FindFirst(text: string, pat: string): (r: Option<nat>)
    ensures r.Some? <==> Occurs(text, pat)
    ensures r.Some? ==> FirstMatch(text, pat, r.value)
  {
    FindFrom(text, pat, 0)
  }

  /** `consulta.lower() in doc.lower()`. */
  predicate Matches(lower: char -> char, consulta: string, doc: string)
  {
    FindFirst(Lowered(lower, doc), Lowered(lower, consulta)).Some?
  }

  /** `a` is obtained from `b` by deleting elements, keeping the order. */
  predicate IsSubsequence<T(==)>(a: seq<T>, b: seq<T>)
    decreases |b|
  {
    if a == [] then true
    else if b == [] then false
    else if a[0] == b[0] then IsSubsequence(a[1..], b[1..])
    else IsSubsequence(a, b[1..])
  }

  /**
   * `buscar_documentos`: the documents whose lowered text contains the
   * lowered query, in their original order. Every matching occurrence is
   * kept and nothing else.
   */
  function SearchDocuments(lower: char -> char, documentos: seq<string>, consulta: string): (r: seq<string>)
    ensures IsSubsequence(r, documentos)
    ensures |r| <= |documentos|
    ensures forall i :: 0 <= i < |r| ==> Matches(lower, consulta, r[i])
    ensures forall d :: multiset(r)[d] == if Matches(lower, consulta, d) then multiset(documentos)[d] else 0
    ensures forall d :: d in r <==> d in documentos && Occurs(Lowered(lower, d), Lowered(lower, consulta))
  {
    if documentos == [] then []
    else
      var rest := SearchDocuments(lower, documentos[1..], consulta);
      assert documentos == [documentos[0]] + documentos[1..];
      if Matches(lower, consulta, documentos[0]) then [documentos[0]] + rest
      else
        assert rest != [] ==> rest[0] != documentos[0];
        rest
  }

  /**
   * `obtener_fragmento`: the part of `documento` from 30 characters before
   * the first case-insensitive match of `consulta` to 30 characters after
   * it, clipped to the document; "" when there is no match.
   */
  function Fragment(lower: char -> char, documento: string, consulta: string): (r: string)
    ensures !Occurs(Lowered(lower, documento), Lowered(lower, consulta)) ==> r == ""
    ensures forall i :: FirstMatch(Lowered(lower, documento), Lowered(lower, consulta), i) ==>
      r == documento[Max(0, i - Context)..Min(|documento|, i + |consulta| + Context)]
  {
    match FindFirst(Lowered(lower, documento), Lowered(lower, consulta))
    case None => ""
    case Some(inicio) =>
      var fin := inicio + |consulta|;
      documento[Max(0, inicio - Context)..Min(|documento|, fin + Context)]
  }

  /**
   * On a match at leftmost index `i`, the fragment holds the matched span
   * of the document at offset `i - max(0, i - 30)`, and the lowered span
   * is the lowered query.
   */
  lemma FragmentContainsMatch(lower: char -> char, documento: string, consulta: string, i: int)
    requires FirstMatch(Lowered(lower, documento), Lowered(lower, consulta), i)
    ensures i - Max(0, i - Context) + |consulta| <= |Fragment(lower, documento, consulta)|
    ensures Fragment(lower, documento, consulta)[i - Max(0, i - Context)..i - Max(0, i - Context) + |consulta|]
      == documento[i..i + |consulta|]
    ensures Lowered(lower, documento[i..i + |consulta|]) == Lowered(lower, consulta)
  {
    var ld, lq := Lowered(lower, documento), Lowered(lower, consulta);
    var s, e := Max(0, i - Context), Min(|documento|, i + |consulta| + Context);
    var r := Fragment(lower, documento, consulta);
    assert r == documento[s..e];
    var off := i - s;
    assert i + |consulta| <= |documento| && s <= i && i + |consulta| <= e;
    var window, span := r[off..off + |consulta|], documento[i..i + |consulta|];
    forall k | 0 <= k < |consulta|
      ensures window[k] == span[k]
    {
      assert r[off + k] == documento[s + off + k];
    }
    assert window == span;
    assert ld[i..i + |consulta|] == lq;
    forall k | 0 <= k < |consulta|
      ensures Lowered(lower, span)[k] == lq[k]
    {
      assert ld[i..i + |consulta|][k] == ld[i + k];
    }
  }

  /** A fragment is never longer than the query plus 30 characters on each side. */
  lemma FragmentLength(lower: char -> char, documento: string, consulta: string)
    ensures |Fragment(lower, documento, consulta)| <= |consulta| + 2 * Context
  {
    var ld, lq := Lowered(lower, documento), Lowered(lower, consulta);
    if Occurs(ld, lq) {
      var i := FindFirst(ld, lq).value;
      assert FirstMatch(ld, lq, i);
    }
  }

  /**
   * The empty query occurs at index 0 of every document, so the fragment is
   * the first `min(|documento|, 30)` characters.
   */
  lemma FragmentEmptyQuery(lower: char -> char, documento: string)
    ensures Fragment(lower, documento, "") == documento[..Min(|documento|, Context)]
  {
    var ld := Lowered(lower, documento);
    assert MatchAt(ld, Lowered(lower, ""), 0);
    assert FirstMatch(ld, Lowered(lower, ""), 0);
  }
}
