# EmailDatasetIterator, modelled in Dafny

The model covers the data-shaping core of a spam filter. `EmailDatasetIterator` pulls e-mails from two labelled
pools, spam and non-spam. It filters each document's tokens against the word-vector vocabulary. It then encodes
each batch as four tensors: features `[n, vectorSize, L]`, labels `[n, 2, L]`, feature mask `[n, L]` and
label mask `[n, L]`.

It has three parts:

- **Dataset cursor.** This is the class `EmailDataset.EmailDatasetIterator`. It holds two integer cursors over
  constant pools. It has `hasNext`, `next(int)`, `next()` and `reset`.
- **Ratio batch composer.** These are the two draw loops of `getNext`. `BatchComposer.Compose` describes what they
  take and where they throw. The methods `DrawSpam` and `DrawNonSpam` run the loops on the cursors and on a real
  `spamStatus` array, and are proved to match `Compose`.
- **Sequence encoder.** This is the second half of `getNext`: tokenize, measure, allocate, fill. The tensors are
  Dafny `array3`/`array2` values, allocated zero-filled and written cell by cell. `SequenceEncoder.Encodes` says,
  for every cell, what value the loops leave there.

Two smaller pieces complete the model. `tokenize` is the vocabulary filter over the tokenizer's output.
`loadFeaturesFromString` is the serving-time encoding of one document.

The model follows the code as written, including these behaviours, each of which is proved:

- The encoding loop runs `i < emails.size() - 1`, so the last row of every batch stays zero (`Encodes`, `LabelMaskCount`).
- `loadFeaturesFromString` never fills timestep 0, while the batch encoder does (`ServingSkipsFirstTimestep`).
- The planned spam count is `s = floor(ratio * batchSize) - 1`.
  - When `s = -1`, the first non-spam draw writes slot -1 and throws (`ComposeFailsBelowZero`).
  - When `s <= 0` and the non-spam pool is drained while spam remains, every batch is empty. No cursor moves, yet
    `hasNext` stays true (`ComposeStalls`). With `s = -1` each call first takes one non-spam document and throws, so
    after as many calls as there are non-spam documents this stall begins. With 3 spam and 9 non-spam documents and
    batch size 4, `s = 0` (`SmallBatchDrawsNoSpam`).
- `spamStatus` has the requested size, but both loops are bounded by the field `batchSize`. The draw completes
  exactly when every slot written lies in the array (`ComposeSucceedsIffInBounds`).
- A failing write comes after its document is taken, so the failing loop's cursor has already moved past that
  document (`Compose`, `DrawSpam`, `DrawNonSpam`).

The model's representation choices:

- Integers stand for the embedding values.
- A word has a vector exactly when it is in the table. So `hasWord` and `getWordVectorMatrix` agree.
- The pool ratio is the exact fraction `|spam| / |nonSpam|`.
- Java exceptions are `Failure` values of a `Result`, carrying a `Thrown` named after the Java exception:
  `NoSuchElement` for `NoSuchElementException` (line 85), `IllegalArgument` for the `IllegalArgumentException` that
  `new ArrayList<>(size)` throws for a negative size (line 96, before the array of line 97 is allocated), and
  `ArrayIndexOutOfBounds` for a write outside `spamStatus` (lines 107, 115).
- Replay after `reset` extends batch by batch: `Delivered` fixes the new cursors and the tensors from the old cursors
  and the requested size alone, and `reset` returns the cursors to the constructor's 0 and 0. So equal cursors and
  equal requests give equal batches at every step (`ReplayAfterReset` shows the first step).

## Model

| member | source | states |
|---|---|---|
| WordVectorTable.GetWordVector | src/main/java/org/utp/modelling/spam/EmailDatasetIterator.java:69-70 | a word has a vector (is not `null`) exactly when the model has the word |
| WordVectorTable.FilterKnown | src/main/java/org/utp/modelling/spam/EmailDatasetIterator.java:75-80 | the filter never lengthens the list and every token it keeps is a known word |
| WordVectorTable.FilterAppend | src/main/java/org/utp/modelling/spam/EmailDatasetIterator.java:75-80 | filtering a concatenation is concatenating the filtered parts, so kept tokens stay in their original order |
| WordVectorTable.FilterCounts | src/main/java/org/utp/modelling/spam/EmailDatasetIterator.java:75-80 | each known word keeps all its occurrences and each unknown word loses all of them |
| WordVectorTable.FilterKeepsKnown | src/main/java/org/utp/modelling/spam/EmailDatasetIterator.java:75-80 | a list of known words passes the filter unchanged |
| WordVectorTable.FilterFixedPoint | src/main/java/org/utp/modelling/spam/EmailDatasetIterator.java:75-80 | the filter leaves a list unchanged if and only if every token in it is known |
| WordVectorTable.FilterIdempotent | src/main/java/org/utp/modelling/spam/EmailDatasetIterator.java:75-80 | filtering twice gives the same list as filtering once |
| BatchComposer.Compose | src/main/java/org/utp/modelling/spam/EmailDatasetIterator.java:95-116 | the draw never reads past either pool's end, and a completed draw fits in the `size` slots of `spamStatus`; a negative size fails with `IllegalArgument` (`NegativeSizeThrows`) |
| BatchComposer.ComposeSucceedsIffInBounds | src/main/java/org/utp/modelling/spam/EmailDatasetIterator.java:97-116 | the draw completes without an exception if and only if every spam slot and every non-spam slot it writes is an index of `spamStatus` |
| BatchComposer.ComposeSucceeds | src/main/java/org/utp/modelling/spam/EmailDatasetIterator.java:97-116 | a request of at least `batchSize` documents completes when the planned spam count lies in `[0, size]` |
| BatchComposer.ComposeProgresses | src/main/java/org/utp/modelling/spam/EmailDatasetIterator.java:101-116 | with at least one spam document planned, a completed draw from a state that is not exhausted takes at least one document |
| BatchComposer.ComposeStalls | src/main/java/org/utp/modelling/spam/EmailDatasetIterator.java:101-116 | with no spam document planned (s <= 0), spam left and the non-spam pool drained, the draw completes empty, so no cursor moves |
| BatchComposer.ComposeFailsBelowZero | src/main/java/org/utp/modelling/spam/EmailDatasetIterator.java:111-116 | with a planned spam count of -1, the first non-spam document is taken and then the write to slot -1 throws |
| BatchComposer.SmallBatchDrawsNoSpam | src/main/java/org/utp/modelling/spam/EmailDatasetIterator.java:102 | with 3 spam and 9 non-spam documents and batch size 4, the first batch holds 0 spam and 4 non-spam documents |
| BatchComposer.NegativeSizeThrows | src/main/java/org/utp/modelling/spam/EmailDatasetIterator.java:96 | a negative size throws `IllegalArgument` and takes no document, so `next(-1)` and `next()` with a negative batch size fail this way |
| BatchComposer.ExactRatioFillsWithNonSpam | src/main/java/org/utp/modelling/spam/EmailDatasetIterator.java:102 | with 1 spam and 49 non-spam documents and batch size 49, the exact ratio gives 0 spam and 49 non-spam documents |
| SequenceEncoder.MaxLen | src/main/java/org/utp/modelling/spam/EmailDatasetIterator.java:119-125 | the result bounds every row's token count and is attained by some row (0 for an empty batch) |
| SequenceEncoder.BatchLength | src/main/java/org/utp/modelling/spam/EmailDatasetIterator.java:118-127 | L is at most `truncateLength`, some row reaches it, and cutting rows at L keeps exactly what cutting at `truncateLength` keeps |
| SequenceEncoder.Encode | src/main/java/org/utp/modelling/spam/EmailDatasetIterator.java:129-151 | the four tensors have the batch's shapes, and every cell holds its value under the encoding rules |
| SequenceEncoder.FillRow | src/main/java/org/utp/modelling/spam/EmailDatasetIterator.java:135-143 | row i holds each kept token's vector at its timestep, and its feature mask is 1 exactly on its kept timesteps; no other row changes |
| SequenceEncoder.MarkLast | src/main/java/org/utp/modelling/spam/EmailDatasetIterator.java:145-148 | row i gets a 1 in its class at its last kept timestep, in both labels and label mask; no other row changes |
| SequenceEncoder.FeatureMaskCount | src/main/java/org/utp/modelling/spam/EmailDatasetIterator.java:136-143 | a visited row's feature mask marks exactly min(token count, L) timesteps; the last row's marks none |
| SequenceEncoder.LabelMaskCount | src/main/java/org/utp/modelling/spam/EmailDatasetIterator.java:146-148 | a visited row's label mask marks exactly one timestep; the last row's marks none |
| SequenceEncoder.LabelMaskAtLastMarked | src/main/java/org/utp/modelling/spam/EmailDatasetIterator.java:136-148 | the label mask is set at a timestep if and only if that is the last timestep the feature mask marks |
| SequenceEncoder.LabelsOneHot | src/main/java/org/utp/modelling/spam/EmailDatasetIterator.java:145-148 | at every timestep a row's two label entries sum to its label mask, and a set entry is at the class of the row's spam flag |
| SequenceEncoder.ServingSkipsFirstTimestep | src/main/java/org/utp/modelling/spam/EmailDatasetIterator.java:54-66 | the serving encoding of a document agrees with its batch row at every kept timestep except 0, where it is zero |
| EmailDataset.GetLabels | src/main/java/org/utp/modelling/spam/EmailDatasetIterator.java:196-198 | two names, indexed by the encoder's class index: "non-spam" at 0 and "spam" at 1 |
| EmailDataset.TotalOutcomes | src/main/java/org/utp/modelling/spam/EmailDatasetIterator.java:160-162 | one outcome per label name |
| EmailDataset.EmailDatasetIterator.constructor | src/main/java/org/utp/modelling/spam/EmailDatasetIterator.java:40-52 | cursors start at 0, the configuration is stored, and the vector size is that of a word of the model |
| EmailDataset.EmailDatasetIterator.Tokenize | src/main/java/org/utp/modelling/spam/EmailDatasetIterator.java:75-80 | every token returned has a word vector |
| EmailDataset.EmailDatasetIterator.TokenizeRemovesUnknown | src/main/java/org/utp/modelling/spam/EmailDatasetIterator.java:75-80 | `tokenize` removes exactly the out-of-vocabulary tokens of the tokenizer's output, and filtering its result again changes nothing |
| EmailDataset.EmailDatasetIterator.HasNext | src/main/java/org/utp/modelling/spam/EmailDatasetIterator.java:200-203 | `hasNext` is true exactly when `next(int)` would not throw `NoSuchElementException` |
| EmailDataset.EmailDatasetIterator.DrawSpam | src/main/java/org/utp/modelling/spam/EmailDatasetIterator.java:101-109 | takes the planned spam documents in pool order and flags their slots; throws, one document past the array's length, when the plan exceeds the array |
| EmailDataset.EmailDatasetIterator.DrawNonSpam | src/main/java/org/utp/modelling/spam/EmailDatasetIterator.java:111-116 | fills up to the field `batchSize` from the planned slot, in pool order, clearing each slot; throws at the first slot outside the array |
| EmailDataset.EmailDatasetIterator.GetNext | src/main/java/org/utp/modelling/spam/EmailDatasetIterator.java:95-152 | cursors advance by exactly what `Compose` draws, the cursor sum by the batch's row count; the result is the draw's exception (`IllegalArgument` for a negative size) or the encoding, in new arrays, of the drawn documents, spam rows first |
| EmailDataset.EmailDatasetIterator.EncodeEmails | src/main/java/org/utp/modelling/spam/EmailDatasetIterator.java:118-151 | the drawn documents, tokenized, encoded at the batch length, with row a labelled spam exactly when a is below the spam count |
| EmailDataset.EmailDatasetIterator.TokenizeBatch | src/main/java/org/utp/modelling/spam/EmailDatasetIterator.java:118-127 | one filtered token list per document, in order, and the batch length of those lists |
| EmailDataset.EmailDatasetIterator.Batch | src/main/java/org/utp/modelling/spam/EmailDatasetIterator.java:180-183 | the configured batch size, the request `next()` passes to `next(int)`: from any cursors, a draw of that size that completes holds at most `batch()` documents |
| EmailDataset.EmailDatasetIterator.NextSized | src/main/java/org/utp/modelling/spam/EmailDatasetIterator.java:83-93 | throws `NoSuchElement` and changes nothing exactly when both pools are exhausted; otherwise does what `getNext` does, so a negative size throws `IllegalArgument` |
| EmailDataset.EmailDatasetIterator.Next | src/main/java/org/utp/modelling/spam/EmailDatasetIterator.java:205-208 | `next()` is `next(batch())`, so a negative configured batch size throws `IllegalArgument` once documents remain, and a batch it returns has at most `batch()` rows |
| EmailDataset.EmailDatasetIterator.Reset | src/main/java/org/utp/modelling/spam/EmailDatasetIterator.java:174-178 | both cursors are 0; pools, ratio, batch size and truncation length are constants and so unchanged |
| EmailDataset.EmailDatasetIterator.ExtractFeatures | src/main/java/org/utp/modelling/spam/EmailDatasetIterator.java:68-73 | writes the token's vector at the given timestep of sample 0 when it has one; otherwise nothing changes |
| EmailDataset.EmailDatasetIterator.LoadFeaturesFromString | src/main/java/org/utp/modelling/spam/EmailDatasetIterator.java:54-66 | shape `[1, vectorSize, min(maxLength, token count)]`; timestep 0 is zero; timestep k >= 1 holds the vector of token k; the result depends only on the first `min(maxLength, token count)` tokens |
| EmailDataset.ReplayAfterReset | src/main/java/org/utp/modelling/spam/EmailDatasetIterator.java:174-178 | two traversals, each starting with a reset, give the same first outcome and the same tensors |

## Left out

- Reading files. This covers resource lookup, `listFiles`, `readFileToString` and the wrapping of `IOException`
  (lines 46-47, 88-92, 105, 113). The pools are given as the documents' texts.
- `DefaultTokenizerFactory` and `CommonPreprocessor`. The tokenizer is an uninterpreted function of the text; only
  the vocabulary filter over its output is modelled.
- Floating point. The ratio is the exact fraction `|spam| / |nonSpam|`. The double product `ratio * batchSize`
  can round below an integer and change the outcome, not only a count: with 1 spam and 49 non-spam documents and
  batch size 49, Java's `1/49.0*49` is just below 1, so `s = -1` and the first non-spam write throws, while the model
  has `s = 0` and returns a batch of 49 non-spam documents (`ExactRatioFillsWithNonSpam`). A product too large for an `int` cast is not modelled.
- An empty non-spam pool. The constructor requires a non-empty non-spam pool. In Java the ratio at line 51 is a
  double division, which gives Infinity (NaN when both pools are empty) and the constructor succeeds; only the
  `int` cast of the product at line 102 then behaves oddly. Those values have no exact counterpart here.
- The vector size. It is the length of a word of the model. The constructor requires all vectors to share that length.
- EmailDataset.EmailDatasetIterator.constructor: requires a non-empty vocabulary. With an empty one, Java's constructor
  fails at line 43, where `vocab().wordAtIndex(0)` has no word whose vector length it could read; that
  construction-time failure is not modelled.
- EmailDataset.EmailDatasetIterator.GetNext: requires every row the encoding loop visits to keep at least one timestep. Otherwise
  the label write at `lastIdx - 1` uses index -1, and how ND4J's `putScalar` treats a negative index is not part of
  this model.
- EmailDataset.EmailDatasetIterator.NextSized: requires every visited row to keep at least one timestep, for the same
  reason as `GetNext`, whenever the pools are not exhausted.
- EmailDataset.EmailDatasetIterator.Next: requires every visited row of a `batch()`-sized draw to keep at least one
  timestep, for the same reason as `GetNext`, whenever the pools are not exhausted.
- EmailDataset.EmailDatasetIterator.EncodeEmails: requires every visited row to keep at least one timestep, for the
  same reason as `GetNext`.
- EmailDataset.ReplayAfterReset: requires every visited row of the first draw after `reset` to keep at least one
  timestep, for the same reason as `GetNext`.
- SequenceEncoder.Encode: requires every visited row to keep at least one timestep, for the same reason as `GetNext`.
- SequenceEncoder.MarkLast: requires its row to keep at least one timestep, for the same reason as `GetNext`.
- EmailDataset.EmailDatasetIterator.LoadFeaturesFromString: requires `maxLength >= 0`, because ND4J's behaviour on a negative
  shape is not part of this model. The truncation length is likewise a `nat`.
- A tensor with a zero dimension (an empty batch, or L = 0) is taken to be an empty array. ND4J's own handling of
  such shapes is not part of this model.
- The feature values are integers standing for the model's doubles. `features.put` with a `null` vector cannot
  happen in `getNext`, because every filtered token has a vector.
- `inputColumns`, `resetSupported`, `asyncSupported`, `setPreProcessor` and `getPreProcessor` return constants or
  throw `UnsupportedOperationException`; they hold no logic.
- `SpamFilterService` (network configuration, training, loading the vector file) and `SpamFilterController`
  (the HTTP endpoint) are not part of this model.
