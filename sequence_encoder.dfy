/**
 * The sequence encoder, the second half of `getNext`: the batch length and
 * the four zero-initialised tensors it fills, cell by cell.
 *
 * Rows are the filtered token lists of the batch's documents, spam first.
 * As in the source, the loop stops before the last row, which stays zero.
 */
module SequenceEncoder {
  import opened Wrappers
  import opened WordVectorTable

  /** `new DataSet(features, labels, featuresMask, labelsMask)`. */
  datatype DataSet = DataSet(features: array3<int>, labels: array3<int>, featuresMask: array2<int>, labelsMask: array2<int>)
  {
    function Repr(): set<object>
    {
      {features, labels, featuresMask, labelsMask}
    }
  }

  /** The longest row, as the `Math.max` loop over the batch computes it. */
  function MaxLen(rows: seq<seq<string>>): (m: nat)
    ensures forall i :: 0 <= i < |rows| ==> |rows[i]| <= m
    ensures |rows| == 0 ==> m == 0
    ensures |rows| > 0 ==> exists i :: 0 <= i < |rows| && |rows[i]| == m
  {
    if rows == [] then 0
    else
      var m := MaxLen(rows[..|rows| - 1]);
      if |rows[|rows| - 1]| > m then |rows[|rows| - 1]| else m
  }

  /** The timesteps of a row that fit a sequence of length `L`. */
  function RowLen(row: seq<string>, L: int): int
  {
    Min(|row|, L)
  }

  /**
   * The batch's sequence length: the longest row capped at `truncateLength`.
   * Cutting rows at it keeps exactly what cutting at `truncateLength` keeps,
   * and some row fills it.
   */
  function BatchLength(rows: seq<seq<string>>, truncateLength: nat): (L: nat)
    ensures L <= truncateLength
    ensures forall i :: 0 <= i < |rows| ==> RowLen(rows[i], L) == RowLen(rows[i], truncateLength)
    ensures |rows| == 0 ==> L == 0
    ensures |rows| > 0 ==> exists i :: 0 <= i < |rows| && RowLen(rows[i], truncateLength) == L
  {
    var m := MaxLen(rows);
    if m > truncateLength then truncateLength else m
  }

  /** Row `a` is one the encoding loop visits: every row but the last. */
  predicate Visited(rows: seq<seq<string>>, a: int)
  {
    0 <= a < |rows| - 1
  }

  /** `labels` dimension 1: non-spam is class 0, spam is class 1. */
  function ClassIndex(spam: bool): int
  {
    if spam then 1 else 0
  }

  function FeatureAt(rows: seq<seq<string>>, L: int, wv: WordVectors, a: int, b: int, t: int): int
  {
    if Visited(rows, a) && 0 <= t < RowLen(rows[a], L) then Component(wv, rows[a][t], b) else 0
  }

  function FeatureMaskAt(rows: seq<seq<string>>, L: int, a: int, t: int): int
  {
    if Visited(rows, a) && 0 <= t < RowLen(rows[a], L) then 1 else 0
  }

  function LabelMaskAt(rows: seq<seq<string>>, L: int, a: int, t: int): int
  {
    if Visited(rows, a) && t == RowLen(rows[a], L) - 1 then 1 else 0
  }

  function LabelAt(rows: seq<seq<string>>, L: int, spam: seq<bool>, a: int, c: int, t: int): int
  {
    if Visited(rows, a) && a < |spam| && c == ClassIndex(spam[a]) && t == RowLen(rows[a], L) - 1 then 1 else 0
  }

  /** The four tensors of `ds` are those the encoder produces for `rows`. */
  ghost predicate Encodes(ds: DataSet, rows: seq<seq<string>>, L: nat, spam: seq<bool>, wv: WordVectors, dim: nat)
    reads ds.Repr()
  {
    && ds.features.Length0 == |rows| && ds.features.Length1 == dim && ds.features.Length2 == L
    && ds.labels.Length0 == |rows| && ds.labels.Length1 == 2 && ds.labels.Length2 == L
    && ds.featuresMask.Length0 == |rows| && ds.featuresMask.Length1 == L
    && ds.labelsMask.Length0 == |rows| && ds.labelsMask.Length1 == L
    && (forall a, b, t :: 0 <= a < |rows| && 0 <= b < dim && 0 <= t < L ==>
          ds.features[a, b, t] == FeatureAt(rows, L, wv, a, b, t))
    && (forall a, c, t :: 0 <= a < |rows| && 0 <= c < 2 && 0 <= t < L ==>
          ds.labels[a, c, t] == LabelAt(rows, L, spam, a, c, t))
    && (forall a, t :: 0 <= a < |rows| && 0 <= t < L ==> ds.featuresMask[a, t] == FeatureMaskAt(rows, L, a, t))
    && (forall a, t :: 0 <= a < |rows| && 0 <= t < L ==> ds.labelsMask[a, t] == LabelMaskAt(rows, L, a, t))
  }

  /**
   * The tensor-filling loops of `getNext`. `spamStatus` holds the batch's
   * spam flags, row by row. Every token has a vector (the rows come out of
   * the vocabulary filter), and every visited row keeps at least one
   * timestep, so that `lastIdx - 1` is an index.
   */
  method Encode(rows: seq<seq<string>>, spamStatus: seq<bool>, L: nat, wv: WordVectors, dim: nat) returns (ds: DataSet)
    requires |spamStatus| == |rows|
    requires Uniform(wv, dim)
    requires forall a, t :: 0 <= a < |rows| && 0 <= t < |rows[a]| ==> HasWord(wv, rows[a][t])
    requires forall a :: Visited(rows, a) ==> RowLen(rows[a], L) >= 1
    ensures fresh(ds.Repr())
    ensures Encodes(ds, rows, L, spamStatus, wv, dim)
  {
    var n := |rows|;
    var features := new int[n, dim, L]((_, _, _) => 0);
    var labels := new int[n, 2, L]((_, _, _) => 0);
    var featuresMask := new int[n, L]((_, _) => 0);
    var labelsMask := new int[n, L]((_, _) => 0);

    var i := 0;
    while i < n - 1
      invariant 0 <= i <= Max(n - 1, 0)
      invariant forall a, b, t :: 0 <= a < n && 0 <= b < dim && 0 <= t < L ==>
        features[a, b, t] == if a < i then FeatureAt(rows, L, wv, a, b, t) else 0
      invariant forall a, c, t :: 0 <= a < n && 0 <= c < 2 && 0 <= t < L ==>
        labels[a, c, t] == if a < i then LabelAt(rows, L, spamStatus, a, c, t) else 0
      invariant forall a, t :: 0 <= a < n && 0 <= t < L ==>
        featuresMask[a, t] == if a < i then FeatureMaskAt(rows, L, a, t) else 0
      invariant forall a, t :: 0 <= a < n && 0 <= t < L ==>
        labelsMask[a, t] == if a < i then LabelMaskAt(rows, L, a, t) else 0
    {
      FillRow(features, featuresMask, rows, i, L, wv, dim);
      MarkLast(labels, labelsMask, rows, spamStatus, i, L);
      i := i + 1;
    }
    ds := DataSet(features, labels, featuresMask, labelsMask);
  }

  /**
   * The inner loop of the encoder for row `i`: write each kept token's
   * vector at its timestep and mark the row's kept timesteps in the mask.
   * Nothing outside row `i` changes.
   */
  method FillRow(features: array3<int>, featuresMask: array2<int>, rows: seq<seq<string>>, i: int, L: nat,
                 wv: WordVectors, dim: nat)
    requires Visited(rows, i)
    requires Uniform(wv, dim)
    requires forall t :: 0 <= t < |rows[i]| ==> HasWord(wv, rows[i][t])
    requires features.Length0 == |rows| && features.Length1 == dim && features.Length2 == L
    requires featuresMask.Length0 == |rows| && featuresMask.Length1 == L
    requires forall b, t :: 0 <= b < dim && 0 <= t < L ==> features[i, b, t] == 0
    requires forall t :: 0 <= t < L ==> featuresMask[i, t] == 0
    modifies features, featuresMask
    ensures forall a, b, t :: 0 <= a < |rows| && 0 <= b < dim && 0 <= t < L ==>
      features[a, b, t] == if a == i then FeatureAt(rows, L, wv, a, b, t) else old(features[a, b, t])
    ensures forall a, t :: 0 <= a < |rows| && 0 <= t < L ==>
      featuresMask[a, t] == if a == i then FeatureMaskAt(rows, L, a, t) else old(featuresMask[a, t])
  {
    var currentTokens := rows[i];
    var length := Min(|currentTokens|, L);
    var j := 0;
    while j < length
      invariant 0 <= j <= length
      invariant forall a, b, t :: 0 <= a < |rows| && 0 <= b < dim && 0 <= t < L ==>
        features[a, b, t] == if a == i && t < j then FeatureAt(rows, L, wv, a, b, t) else old(features[a, b, t])
      invariant forall a, t :: 0 <= a < |rows| && 0 <= t < L ==>
        featuresMask[a, t] == if a == i && 0 < j then FeatureMaskAt(rows, L, a, t) else old(featuresMask[a, t])
    {
      var vector := wv.table[currentTokens[j]];
      forall b | 0 <= b < dim {
        features[i, b, j] := vector[b];
      }
      forall t | 0 <= t < length {
        featuresMask[i, t] := 1;
      }
      j := j + 1;
    }
  }

  /**
   * The label writes of the encoder for row `i`: a 1 in the row's class at
   * its last kept timestep, and the same timestep in the label mask.
   * Nothing outside row `i` changes.
   */
  method MarkLast(labels: array3<int>, labelsMask: array2<int>, rows: seq<seq<string>>, spamStatus: seq<bool>,
                  i: int, L: nat)
    requires Visited(rows, i) && |spamStatus| == |rows|
    requires RowLen(rows[i], L) >= 1
    requires labels.Length0 == |rows| && labels.Length1 == 2 && labels.Length2 == L
    requires labelsMask.Length0 == |rows| && labelsMask.Length1 == L
    requires forall c, t :: 0 <= c < 2 && 0 <= t < L ==> labels[i, c, t] == 0
    requires forall t :: 0 <= t < L ==> labelsMask[i, t] == 0
    modifies labels, labelsMask
    ensures forall a, c, t :: 0 <= a < |rows| && 0 <= c < 2 && 0 <= t < L ==>
      labels[a, c, t] == if a == i then LabelAt(rows, L, spamStatus, a, c, t) else old(labels[a, c, t])
    ensures forall a, t :: 0 <= a < |rows| && 0 <= t < L ==>
      labelsMask[a, t] == if a == i then LabelMaskAt(rows, L, a, t) else old(labelsMask[a, t])
  {
    var idx := if spamStatus[i] then 1 else 0;
    var lastIdx := Min(|rows[i]|, L);
    labels[i, idx, lastIdx - 1] := 1;
    labelsMask[i, lastIdx - 1] := 1;
  }

  /** The sum of `f` over the timesteps `0 .. hi - 1`. */
  function Total(f: int -> int, hi: nat): int
  {
    if hi == 0 then 0 else Total(f, hi - 1) + f(hi - 1)
  }

  /** A visited row's feature mask marks exactly its first `RowLen` timesteps; the last row's marks none. */
  lemma {:induction false} FeatureMaskCount(rows: seq<seq<string>>, L: nat, a: int, hi: nat)
    requires hi <= L
    ensures Total(t => FeatureMaskAt(rows, L, a, t), hi) == if Visited(rows, a) then Min(RowLen(rows[a], L), hi) else 0
  {
    if hi > 0 {
      FeatureMaskCount(rows, L, a, hi - 1);
    }
  }

  /** A visited row's label mask marks exactly one timestep; the last row's marks none. */
  lemma {:induction false} LabelMaskCount(rows: seq<seq<string>>, L: nat, a: int)
    requires Visited(rows, a) ==> RowLen(rows[a], L) >= 1
    ensures Total(t => LabelMaskAt(rows, L, a, t), L) == if Visited(rows, a) then 1 else 0
  {
    LabelMaskPrefix(rows, L, a, L);
  }

  lemma {:induction false} LabelMaskPrefix(rows: seq<seq<string>>, L: nat, a: int, hi: nat)
    requires hi <= L
    ensures Total(t => LabelMaskAt(rows, L, a, t), hi) ==
      if Visited(rows, a) && 0 <= RowLen(rows[a], L) - 1 < hi then 1 else 0
  {
    if hi > 0 {
      LabelMaskPrefix(rows, L, a, hi - 1);
    }
  }

  /** The label mask sits on the last timestep the feature mask marks. */
  lemma LabelMaskAtLastMarked(rows: seq<seq<string>>, L: nat, a: int, t: nat)
    ensures LabelMaskAt(rows, L, a, t) == 1 <==> FeatureMaskAt(rows, L, a, t) == 1 && FeatureMaskAt(rows, L, a, t + 1) == 0
  {
  }

  /**
   * At each timestep the two label entries of a row add up to its label
   * mask, and a set entry is at the class of the row's spam flag.
   */
  lemma LabelsOneHot(rows: seq<seq<string>>, L: nat, spam: seq<bool>, a: int, t: int)
    requires |spam| == |rows|
    ensures LabelAt(rows, L, spam, a, 0, t) + LabelAt(rows, L, spam, a, 1, t) == LabelMaskAt(rows, L, a, t)
    ensures forall c :: LabelAt(rows, L, spam, a, c, t) == 1 ==> 0 <= a < |spam| && c == ClassIndex(spam[a])
  {
  }

  /**
   * Timestep `t` of the single-document encoding used at serving time:
   * timestep 0 is never filled.
   */
  function SingleFeatureAt(tokens: seq<string>, wv: WordVectors, b: int, t: int): int
  {
    if 1 <= t < |tokens| then Component(wv, tokens[t], b) else 0
  }

  /**
   * A document encoded alone at serving time and as a visited batch row at
   * training time agrees on every timestep but the first.
   */
  lemma ServingSkipsFirstTimestep(rows: seq<seq<string>>, L: nat, wv: WordVectors, a: int, b: int, t: int)
    requires Visited(rows, a) && 0 <= t < RowLen(rows[a], L)
    ensures t >= 1 ==> SingleFeatureAt(rows[a], wv, b, t) == FeatureAt(rows, L, wv, a, b, t)
    ensures t == 0 ==> SingleFeatureAt(rows[a], wv, b, t) == 0 && FeatureAt(rows, L, wv, a, b, t) == Component(wv, rows[a][0], b)
  {
  }

  /** Two batches hold the same numbers in all four tensors. */
  ghost predicate SameContents(x: DataSet, y: DataSet)
    reads x.Repr(), y.Repr()
  {
    && x.features.Length0 == y.features.Length0 && x.features.Length1 == y.features.Length1
    && x.features.Length2 == y.features.Length2
    && x.labels.Length0 == y.labels.Length0 && x.labels.Length1 == y.labels.Length1 && x.labels.Length2 == y.labels.Length2
    && x.featuresMask.Length0 == y.featuresMask.Length0 && x.featuresMask.Length1 == y.featuresMask.Length1
    && x.labelsMask.Length0 == y.labelsMask.Length0 && x.labelsMask.Length1 == y.labelsMask.Length1
    && (forall a, b, t :: 0 <= a < x.features.Length0 && 0 <= b < x.features.Length1 && 0 <= t < x.features.Length2 ==>
          x.features[a, b, t] == y.features[a, b, t])
    && (forall a, c, t :: 0 <= a < x.labels.Length0 && 0 <= c < x.labels.Length1 && 0 <= t < x.labels.Length2 ==>
          x.labels[a, c, t] == y.labels[a, c, t])
    && (forall a, t :: 0 <= a < x.featuresMask.Length0 && 0 <= t < x.featuresMask.Length1 ==>
          x.featuresMask[a, t] == y.featuresMask[a, t])
    && (forall a, t :: 0 <= a < x.labelsMask.Length0 && 0 <= t < x.labelsMask.Length1 ==>
          x.labelsMask[a, t] == y.labelsMask[a, t])
  }
}
