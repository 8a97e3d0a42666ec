/**
 * The word-vector table the iterator queries, and the vocabulary filter
 * applied to the tokenizer's output.
 *
 * Embedding values are opaque: an `int` stands for each component.
 */
module WordVectorTable {
  import opened Wrappers

  /** A word-vector model: every known word has a vector. */
  datatype WordVectors = WordVectors(table: map<string, seq<int>>)

  /** `wordVectors.hasWord(w)`. */
  predicate HasWord(wv: WordVectors, w: string)
  {
    w in wv.table
  }

  /** `wordVectors.getWordVectorMatrix(w)`: `None` stands for `null`. */
  function GetWordVector(wv: WordVectors, w: string): (r: Option<seq<int>>)
    ensures r.Some? <==> HasWord(wv, w)
  {
    if w in wv.table then Some(wv.table[w]) else None
  }

  /** Every vector of the model has `dim` components. */
  ghost predicate Uniform(wv: WordVectors, dim: nat)
  {
    forall w :: w in wv.table ==> |wv.table[w]| == dim
  }

  /** Component `b` of the vector of `w`, or 0 when `w` has none. */
  function Component(wv: WordVectors, w: string, b: int): int
  {
    if w in wv.table && 0 <= b < |wv.table[w]| then wv.table[w][b] else 0
  }

  /** The stream filter `filter(wordVectors::hasWord)` over a token list. */
  function FilterKnown(tokens: seq<string>, wv: WordVectors): (r: seq<string>)
    ensures |r| <= |tokens|
    ensures forall i :: 0 <= i < |r| ==> HasWord(wv, r[i])
  {
    if tokens == [] then []
    else if HasWord(wv, tokens[0]) then [tokens[0]] + FilterKnown(tokens[1..], wv)
    else FilterKnown(tokens[1..], wv)
  }

  /** Filtering distributes over concatenation: the relative order of kept tokens is unchanged. */
  lemma {:induction false} FilterAppend(a: seq<string>, b: seq<string>, wv: WordVectors)
    ensures FilterKnown(a + b, wv) == FilterKnown(a, wv) + FilterKnown(b, wv)
  {
    if a == [] {
      assert a + b == b;
    } else {
      assert (a + b)[0] == a[0];
      assert (a + b)[1..] == a[1..] + b;
      FilterAppend(a[1..], b, wv);
    }
  }

  /** Exactly the out-of-vocabulary tokens are removed: each known word keeps all its occurrences. */
  lemma {:induction false} FilterCounts(tokens: seq<string>, wv: WordVectors, w: string)
    ensures multiset(FilterKnown(tokens, wv))[w] == if HasWord(wv, w) then multiset(tokens)[w] else 0
  {
    if tokens != [] {
      FilterCounts(tokens[1..], wv, w);
      assert tokens == [tokens[0]] + tokens[1..];
      assert multiset(tokens) == multiset([tokens[0]]) + multiset(tokens[1..]);
    }
  }

  /** A list of known words passes the filter unchanged. */
  lemma {:induction false} FilterKeepsKnown(tokens: seq<string>, wv: WordVectors)
    requires forall i :: 0 <= i < |tokens| ==> HasWord(wv, tokens[i])
    ensures FilterKnown(tokens, wv) == tokens
  {
    if tokens != [] {
      FilterKeepsKnown(tokens[1..], wv);
    }
  }

  /** The filter is the identity exactly on lists of known words. */
  lemma FilterFixedPoint(tokens: seq<string>, wv: WordVectors)
    ensures FilterKnown(tokens, wv) == tokens <==> forall i :: 0 <= i < |tokens| ==> HasWord(wv, tokens[i])
  {
    if forall i :: 0 <= i < |tokens| ==> HasWord(wv, tokens[i]) {
      FilterKeepsKnown(tokens, wv);
    }
  }

  /** Filtering twice is filtering once. */
  lemma FilterIdempotent(tokens: seq<string>, wv: WordVectors)
    ensures FilterKnown(FilterKnown(tokens, wv), wv) == FilterKnown(tokens, wv)
  {
    FilterKeepsKnown(FilterKnown(tokens, wv), wv);
  }
}
