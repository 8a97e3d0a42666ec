/**
 * The dataset cursor: an iterator over a spam and a non-spam pool that
 * produces ratio-composed, padded and masked batches.
 *
 * The pools are the documents' texts (reading the files is not modelled);
 * the tokenizer is an uninterpreted function of the text.
 */
module EmailDataset {
  import opened Wrappers
  import opened WordVectorTable
  import opened BatchComposer
  import opened SequenceEncoder

  /** `getLabels()`: the class names, indexed by the encoder's class index. */
  function GetLabels(): (r: seq<string>)
    ensures |r| == 2
    ensures r[ClassIndex(false)] == "non-spam" && r[ClassIndex(true)] == "spam"
  {
    ["non-spam", "spam"]
  }

  /** `totalOutcomes()`: one outcome per label name. */
  function TotalOutcomes(): (r: int)
    ensures r == |GetLabels()|
  {
    2
  }

  class EmailDatasetIterator {
    const wordVectors: WordVectors
    const batchSize: int
    const vectorSize: nat
    const truncateLength: nat
    const spamFiles: seq<string>
    const nonSpamFiles: seq<string>
    const tokenizer: string -> seq<string>

    var spamCursor: int
    var nonSpamCursor: int

    /** Cursors inside their pools; the ratio is defined; every vector has `vectorSize` components. */
    ghost predicate Valid()
      reads this
    {
      && 0 <= spamCursor <= |spamFiles|
      && 0 <= nonSpamCursor <= |nonSpamFiles|
      && |nonSpamFiles| > 0
      && Uniform(wordVectors, vectorSize)
    }

    /**
     * The pools arrive as document texts. The vector size is that of some
     * word of the model, and all words share it. The ratio of the pool sizes
     * is fixed here once: it is computed from the constant pools.
     */
    constructor (spam: seq<string>, nonSpam: seq<string>, vectors: WordVectors,
                 tokens: string -> seq<string>, batch: int, truncate: nat)
      requires |nonSpam| > 0
      requires vectors.table != map[]
      requires forall w, u :: w in vectors.table && u in vectors.table ==> |vectors.table[w]| == |vectors.table[u]|
      ensures Valid()
      ensures spamCursor == 0 && nonSpamCursor == 0
      ensures spamFiles == spam && nonSpamFiles == nonSpam && wordVectors == vectors
      ensures tokenizer == tokens && batchSize == batch && truncateLength == truncate
      ensures exists w :: w in vectors.table && vectorSize == |vectors.table[w]|
    {
      wordVectors := vectors;
      batchSize := batch;
      var w :| w in vectors.table;
      vectorSize := |vectors.table[w]|;
      truncateLength := truncate;
      spamFiles := spam;
      nonSpamFiles := nonSpam;
      tokenizer := tokens;
      spamCursor := 0;
      nonSpamCursor := 0;
    }

    /** `tokenize`: the tokenizer's output, kept to the words the model knows. */
    function Tokenize(text: string): (r: seq<string>)
      ensures forall i :: 0 <= i < |r| ==> HasWord(wordVectors, r[i])
    {
      FilterKnown(tokenizer(text), wordVectors)
    }

    /**
     * `tokenize` removes exactly the out-of-vocabulary tokens (each known word
     * keeps all its occurrences, in order), and filtering its output again
     * changes nothing.
     */
    lemma TokenizeRemovesUnknown(text: string)
      ensures forall w :: multiset(Tokenize(text))[w] == if HasWord(wordVectors, w) then multiset(tokenizer(text))[w] else 0
      ensures FilterKnown(Tokenize(text), wordVectors) == Tokenize(text)
    {
      forall w {
        FilterCounts(tokenizer(text), wordVectors, w);
      }
      FilterIdempotent(tokenizer(text), wordVectors);
    }

    /** The guard of `next(int)`: both cursors at the end of their pools. */
    predicate Exhausted()
      reads this
    {
      spamCursor == |spamFiles| && nonSpamCursor == |nonSpamFiles|
    }

    /** `hasNext()`: some document is left exactly when `next` does not throw. */
    function HasNext(): (b: bool)
      reads this
      requires Valid()
      ensures b <==> !Exhausted()
    {
      spamCursor + nonSpamCursor < |spamFiles| + |nonSpamFiles|
    }

    /**
     * `batch()`: the configured batch size, which `next()` requests. From
     * any cursors, a draw of that size that completes holds at most `r`
     * documents.
     */
    function Batch(): (r: int)
      ensures r == batchSize
      ensures |nonSpamFiles| > 0 ==>
        forall sc, nc :: 0 <= sc <= |spamFiles| && 0 <= nc <= |nonSpamFiles| && Plan(sc, nc, r).failure == None ==>
          Plan(sc, nc, r).spamTaken + Plan(sc, nc, r).nonSpamTaken <= r
    {
      batchSize
    }

    /** The draw `getNext(size)` makes from cursors `sc` and `nc`. */
    ghost function Plan(sc: int, nc: int, size: int): Draw
      requires 0 <= sc <= |spamFiles| && 0 <= nc <= |nonSpamFiles| && |nonSpamFiles| > 0
    {
      Compose(|spamFiles|, |nonSpamFiles|, batchSize, sc, nc, size)
    }

    /** The texts of a completed draw: the spam documents taken, then the non-spam ones, each in pool order. */
    ghost function BatchTexts(sc: int, nc: int, d: Draw): seq<string>
      requires 0 <= sc && sc + d.spamTaken <= |spamFiles|
      requires 0 <= nc && nc + d.nonSpamTaken <= |nonSpamFiles|
    {
      spamFiles[sc..sc + d.spamTaken] + nonSpamFiles[nc..nc + d.nonSpamTaken]
    }

    /** The token lists of a batch's texts, one per text. */
    ghost function Rows(texts: seq<string>): (rows: seq<seq<string>>)
      ensures |rows| == |texts|
    {
      seq(|texts|, i requires 0 <= i < |texts| => Tokenize(texts[i]))
    }

    /** The spam flag of each of `n` rows: the `spamTaken` spam documents come first. */
    ghost function SpamFlags(n: nat, spamTaken: nat): seq<bool>
    {
      seq(n, i => i < spamTaken)
    }

    /** Every visited row keeps at least one timestep of the batch length. */
    ghost predicate RowsEncodable(rows: seq<seq<string>>)
    {
      forall a :: Visited(rows, a) ==> RowLen(rows[a], BatchLength(rows, truncateLength)) >= 1
    }

    /**
     * Every row the encoding loop visits keeps at least one timestep, so that
     * the label write at `lastIdx - 1` is an index.
     */
    ghost predicate Encodable(sc: int, nc: int, size: int)
      requires 0 <= sc <= |spamFiles| && 0 <= nc <= |nonSpamFiles| && |nonSpamFiles| > 0
    {
      var d := Plan(sc, nc, size);
      d.failure == None ==> RowsEncodable(Rows(BatchTexts(sc, nc, d)))
    }

    /**
     * What `getNext(size)` does from cursors `sc` and `nc`: the cursors move
     * past exactly the documents drawn, and the result is the exception that
     * stopped the draw or the encoded batch.
     */
    ghost predicate Delivered(sc: int, nc: int, size: int, r: Result<DataSet, Thrown>)
      reads this, if r.Success? then r.value.Repr() else {}
      requires 0 <= sc <= |spamFiles| && 0 <= nc <= |nonSpamFiles| && |nonSpamFiles| > 0
    {
      var d := Plan(sc, nc, size);
      && spamCursor == sc + d.spamTaken
      && nonSpamCursor == nc + d.nonSpamTaken
      && (d.failure.Some? ==> r == Failure(d.failure.value))
      && (d.failure.None? ==>
            var rows := Rows(BatchTexts(sc, nc, d));
            r.Success? && Encodes(r.value, rows, BatchLength(rows, truncateLength),
                                  SpamFlags(|rows|, d.spamTaken), wordVectors, vectorSize))
    }

    /**
     * The spam loop of `getNext`: aim for the planned spam count, mark each
     * spam document's slot, and throw when a slot lies past the array. The
     * result is the slot where the non-spam loop starts.
     */
    method DrawSpam(spamStatus: array<bool>) returns (emails: seq<string>, spamStatusIndex: int, thrown: bool)
      requires Valid()
      requires forall k :: 0 <= k < spamStatus.Length ==> !spamStatus[k]
      modifies this`spamCursor, spamStatus
      ensures Valid()
      ensures var want := SpamWanted(|spamFiles|, |nonSpamFiles|, batchSize, old(spamCursor));
        if want > spamStatus.Length then
          thrown && spamCursor == old(spamCursor) + spamStatus.Length + 1
        else
          && !thrown
          && spamCursor == old(spamCursor) + want
          && emails == spamFiles[old(spamCursor)..spamCursor]
          && spamStatusIndex == NonSpamStart(|spamFiles|, |nonSpamFiles|, batchSize, old(spamCursor))
          && (forall k :: 0 <= k < spamStatus.Length ==> spamStatus[k] == (k < want))
    {
      ghost var sc0 := spamCursor;
      emails := [];
      spamStatusIndex := 0;
      thrown := false;
      if spamCursor < |spamFiles| {
        spamStatusIndex := (|spamFiles| * batchSize) / |nonSpamFiles| - 1;
        var index := 0;
        while index < spamStatusIndex && spamCursor < |spamFiles|
          invariant 0 <= index <= spamStatus.Length
          invariant index <= SpamWanted(|spamFiles|, |nonSpamFiles|, batchSize, sc0)
          invariant spamCursor == sc0 + index
          invariant emails == spamFiles[sc0..spamCursor]
          invariant forall k :: 0 <= k < spamStatus.Length ==> spamStatus[k] == (k < index)
        {
          var text := spamFiles[spamCursor];
          spamCursor := spamCursor + 1;
          emails := emails + [text];
          if index >= spamStatus.Length {
            return emails, spamStatusIndex, true;
          }
          spamStatus[index] := true;
          index := index + 1;
        }
      }
    }

    /**
     * The non-spam loop of `getNext`: from slot `start`, fill the batch up to
     * `batchSize` (the field, not the requested size), clearing each slot,
     * and throw when a slot lies outside the array.
     */
    method DrawNonSpam(spamStatus: array<bool>, start: int, emails: seq<string>) returns (batch: seq<string>, thrown: bool)
      requires Valid()
      modifies this`nonSpamCursor, spamStatus
      ensures Valid()
      ensures var want := Min(Max(batchSize - start, 0), |nonSpamFiles| - old(nonSpamCursor));
        var firstBad := if start < 0 || start >= spamStatus.Length then 0 else spamStatus.Length - start;
        if want > firstBad then
          thrown && nonSpamCursor == old(nonSpamCursor) + firstBad + 1
        else
          && !thrown
          && nonSpamCursor == old(nonSpamCursor) + want
          && batch == emails + nonSpamFiles[old(nonSpamCursor)..nonSpamCursor]
          && (forall k :: 0 <= k < spamStatus.Length ==>
                spamStatus[k] == if start <= k < start + want then false else old(spamStatus[k]))
    {
      ghost var nc0 := nonSpamCursor;
      ghost var want := Min(Max(batchSize - start, 0), |nonSpamFiles| - nc0);
      batch := emails;
      thrown := false;
      var index := start;
      while index < batchSize && nonSpamCursor < |nonSpamFiles|
        invariant start <= index && index - start <= want
        invariant index == start || (0 <= start && index <= spamStatus.Length)
        invariant nonSpamCursor == nc0 + (index - start)
        invariant batch == emails + nonSpamFiles[nc0..nonSpamCursor]
        invariant forall k :: 0 <= k < spamStatus.Length ==>
          spamStatus[k] == if start <= k < index then false else old(spamStatus[k])
      {
        var text := nonSpamFiles[nonSpamCursor];
        nonSpamCursor := nonSpamCursor + 1;
        batch := batch + [text];
        if index < 0 || index >= spamStatus.Length {
          return batch, true;
        }
        spamStatus[index] := false;
        index := index + 1;
      }
    }

    /** `getNext(size)`: draw, tokenize, and encode one batch. */
    method GetNext(size: int) returns (r: Result<DataSet, Thrown>)
      requires Valid()
      requires Encodable(spamCursor, nonSpamCursor, size)
      modifies this
      ensures Valid()
      ensures Delivered(old(spamCursor), old(nonSpamCursor), size, r)
      ensures r.Success? ==> spamCursor + nonSpamCursor == old(spamCursor + nonSpamCursor) + r.value.features.Length0
      ensures r.Success? ==> fresh(r.value.Repr())
    {
      ghost var sc0, nc0 := spamCursor, nonSpamCursor;
      ghost var d := Plan(sc0, nc0, size);
      if size < 0 {
        return Failure(IllegalArgument);
      }
      var spamStatus := new bool[size](_ => false);
      var emails, spamStatusIndex, thrown := DrawSpam(spamStatus);
      if thrown {
        return Failure(ArrayIndexOutOfBounds);
      }
      ghost var spamTaken := |emails|;
      emails, thrown := DrawNonSpam(spamStatus, spamStatusIndex, emails);
      if thrown {
        return Failure(ArrayIndexOutOfBounds);
      }
      assert d == Draw(spamTaken, nonSpamCursor - nc0, None);
      assert emails == BatchTexts(sc0, nc0, d);
      var ds := EncodeEmails(emails, spamStatus, spamTaken);
      r := Success(ds);
    }

    /**
     * The second half of `getNext`: tokenize the drawn documents, fix the
     * batch length, and fill the tensors; the spam flags come from the array
     * the draw loops filled.
     */
    method EncodeEmails(emails: seq<string>, spamStatus: array<bool>, ghost spamTaken: nat) returns (ds: DataSet)
      requires Valid()
      requires |emails| <= spamStatus.Length
      requires forall k :: 0 <= k < spamStatus.Length ==> spamStatus[k] == (k < spamTaken)
      requires RowsEncodable(Rows(emails))
      ensures fresh(ds.Repr())
      ensures var rows := Rows(emails);
        Encodes(ds, rows, BatchLength(rows, truncateLength), SpamFlags(|rows|, spamTaken), wordVectors, vectorSize)
    {
      var tokens, maxLength := TokenizeBatch(emails);
      assert tokens == Rows(emails);
      assert spamStatus[..|emails|] == SpamFlags(|emails|, spamTaken) by {
        forall k | 0 <= k < |emails| ensures spamStatus[..|emails|][k] == SpamFlags(|emails|, spamTaken)[k] {
        }
      }
      ds := Encode(tokens, spamStatus[..|emails|], maxLength, wordVectors, vectorSize);
    }

    /**
     * The loop of `getNext` that tokenizes the batch's documents and measures
     * the longest, capped at `truncateLength`.
     */
    method TokenizeBatch(emails: seq<string>) returns (tokens: seq<seq<string>>, maxLength: nat)
      ensures |tokens| == |emails|
      ensures forall i :: 0 <= i < |emails| ==> tokens[i] == Tokenize(emails[i])
      ensures maxLength == BatchLength(tokens, truncateLength)
    {
      tokens := [];
      maxLength := 0;
      for e := 0 to |emails|
        invariant |tokens| == e
        invariant forall i :: 0 <= i < e ==> tokens[i] == Tokenize(emails[i])
        invariant maxLength == MaxLen(tokens)
      {
        var currentTokens := Tokenize(emails[e]);
        assert (tokens + [currentTokens])[..e] == tokens;
        tokens := tokens + [currentTokens];
        maxLength := if |currentTokens| > maxLength then |currentTokens| else maxLength;
      }
      if maxLength > truncateLength {
        maxLength := truncateLength;
      }
    }

    /** `next(int)`: refuse an exhausted iterator, otherwise `getNext`. */
    method NextSized(i: int) returns (r: Result<DataSet, Thrown>)
      requires Valid()
      requires !Exhausted() ==> Encodable(spamCursor, nonSpamCursor, i)
      modifies this
      ensures Valid()
      ensures old(Exhausted()) ==>
        r == Failure(NoSuchElement) && spamCursor == old(spamCursor) && nonSpamCursor == old(nonSpamCursor)
      ensures !old(Exhausted()) ==> Delivered(old(spamCursor), old(nonSpamCursor), i, r)
      ensures r.Success? ==> fresh(r.value.Repr())
    {
      if spamCursor == |spamFiles| && nonSpamCursor == |nonSpamFiles| {
        return Failure(NoSuchElement);
      }
      r := GetNext(i);
    }

    /** `next()`: a batch of the configured size. */
    method Next() returns (r: Result<DataSet, Thrown>)
      requires Valid()
      requires !Exhausted() ==> Encodable(spamCursor, nonSpamCursor, Batch())
      modifies this
      ensures Valid()
      ensures old(Exhausted()) ==>
        r == Failure(NoSuchElement) && spamCursor == old(spamCursor) && nonSpamCursor == old(nonSpamCursor)
      ensures !old(Exhausted()) ==> Delivered(old(spamCursor), old(nonSpamCursor), Batch(), r)
      ensures r.Success? ==> fresh(r.value.Repr())
      ensures r.Success? ==> r.value.features.Length0 <= Batch()
    {
      r := NextSized(Batch());
    }

    /** `reset()`: both cursors back to the start; pools, ratio and sizes are constants. */
    method Reset()
      requires Valid()
      modifies this
      ensures Valid()
      ensures spamCursor == 0 && nonSpamCursor == 0
    {
      spamCursor := 0;
      nonSpamCursor := 0;
    }

    /** `extractFeatures`: write the token's vector at timestep `index` of sample 0, if it has one. */
    method ExtractFeatures(token: string, features: array3<int>, index: int)
      requires Valid()
      requires features.Length0 >= 1 && features.Length1 == vectorSize && 0 <= index < features.Length2
      modifies features
      ensures forall a, b, t :: 0 <= a < features.Length0 && 0 <= b < features.Length1 && 0 <= t < features.Length2 ==>
        features[a, b, t] == if a == 0 && t == index && HasWord(wordVectors, token)
                             then Component(wordVectors, token, b) else old(features[a, b, t])
    {
      var vector := GetWordVector(wordVectors, token);
      if vector == None {
        return;
      }
      forall b | 0 <= b < vectorSize {
        features[0, b, index] := vector.value[b];
      }
    }

    /**
     * `loadFeaturesFromString`: the serving-time encoding of one document,
     * of length `min(maxLength, token count)`, timestep 0 left zero.
     */
    method LoadFeaturesFromString(email: string, maxLength: int) returns (features: array3<int>)
      requires Valid()
      requires maxLength >= 0
      ensures fresh(features)
      ensures features.Length0 == 1 && features.Length1 == vectorSize
      ensures features.Length2 == Min(maxLength, |Tokenize(email)|)
      ensures forall b :: 0 <= b < vectorSize && 0 < features.Length2 ==> features[0, b, 0] == 0
      ensures forall b, t :: 0 <= b < vectorSize && 0 <= t < features.Length2 ==>
        features[0, b, t] == SingleFeatureAt(Tokenize(email), wordVectors, b, t)
    {
      var tokens := Tokenize(email);
      var outputLength := Min(maxLength, |tokens|);
      features := new int[1, vectorSize, outputLength]((_, _, _) => 0);

      var index := 0;
      while index < outputLength - 1
        invariant 0 <= index <= Max(outputLength - 1, 0)
        invariant forall b, t :: 0 <= b < vectorSize && 0 <= t < outputLength ==>
          features[0, b, t] == if t <= index then SingleFeatureAt(tokens, wordVectors, b, t) else 0
      {
        index := index + 1;
        ExtractFeatures(tokens[index], features, index);
      }
    }
  }

  /**
   * After `reset`, the first batch is the one a freshly reset iterator
   * produces again: two resets and two draws of the same size give the same
   * outcome and the same tensors.
   */
  method ReplayAfterReset(it: EmailDatasetIterator, size: int)
    returns (first: Result<DataSet, Thrown>, second: Result<DataSet, Thrown>)
    requires it.Valid()
    requires it.Encodable(0, 0, size)
    modifies it
    ensures it.Valid()
    ensures first.Failure? <==> second.Failure?
    ensures first.Failure? ==> first == second
    ensures first.Success? ==> SameContents(first.value, second.value)
  {
    it.Reset();
    first := it.NextSized(size);
    it.Reset();
    second := it.NextSized(size);
  }
}
