/** calculate_similarity (database_manager.py): difflib's SequenceMatcher
    ratio of the two upper-cased plates.  The ratio itself belongs to a
    library outside this model and is a parameter; IsRatio states what the
    model relies on about it. */
module Fuzzy {
  import opened Text

  /** A similarity ratio: in [0, 1], and 1 on identical input.  difflib's
      ratio is not symmetric in general, so no symmetry is assumed. */
  ghost predicate IsRatio(ratio: (string, string) -> real) {
    && (forall a, b :: 0.0 <= ratio(a, b) <= 1.0)
    && (forall a :: ratio(a, a) == 1.0)
  }

  /** calculate_similarity(str1, str2): the ratio of the upper-cased
      plates, in that argument order. */
  function Similarity(ratio: (string, string) -> real, a: string, b: string): (r: real)
    ensures IsRatio(ratio) ==> 0.0 <= r <= 1.0
    ensures IsRatio(ratio) && Upper(a) == Upper(b) ==> r == 1.0
  {
    ratio(Upper(a), Upper(b))
  }

  /** The comparison ignores ASCII case: upper-casing either plate first
      gives the same score. */
  lemma SimilarityProperties(ratio: (string, string) -> real, a: string, b: string)
    ensures Similarity(ratio, Upper(a), b) == Similarity(ratio, a, b)
    ensures Similarity(ratio, a, Upper(b)) == Similarity(ratio, a, b)
  {
    UpperIdempotent(a);
    UpperIdempotent(b);
  }
}
