/**
 * The ratio batch composer: what the two draw loops of `getNext` take from
 * the spam and non-spam pools, and where they throw.
 *
 * The pool ratio is the exact fraction p / n of the pool sizes; Dafny's `/`
 * on a positive divisor rounds down, as `Math.floor` does.
 */
module BatchComposer {
  import opened Wrappers

  /** How many documents each loop took, and the exception that stopped the draw, if any. */
  datatype Draw = Draw(spamTaken: nat, nonSpamTaken: nat, failure: Option<Thrown>)

  /** `floor(spamNonSpamRatio * batchSize) - 1`, the spam count the first loop aims for. */
  function PlannedSpam(p: nat, n: nat, batchSize: int): int
    requires n > 0
  {
    (p * batchSize) / n - 1
  }

  /** The first `spamStatus` slot the non-spam loop writes. */
  function NonSpamStart(p: nat, n: nat, batchSize: int, sc: nat): int
    requires n > 0
  {
    if sc < p then PlannedSpam(p, n, batchSize) else 0
  }

  /** Spam documents the first loop takes if no write fails. */
  function SpamWanted(p: nat, n: nat, batchSize: int, sc: nat): nat
    requires n > 0 && sc <= p
  {
    if sc < p then Min(Max(PlannedSpam(p, n, batchSize), 0), p - sc) else 0
  }

  /** Non-spam documents the second loop takes if no write fails. */
  function NonSpamWanted(p: nat, n: nat, batchSize: int, sc: nat, nc: nat): nat
    requires n > 0 && sc <= p && nc <= n
  {
    Min(Max(batchSize - NonSpamStart(p, n, batchSize, sc), 0), n - nc)
  }

  /**
   * The draw that `getNext(size)` makes with cursors `sc` and `nc`.
   * A failing write happens after its document was taken, so the failing
   * loop's cursor has already moved past that document.
   */
  function Compose(p: nat, n: nat, batchSize: int, sc: nat, nc: nat, size: int): (d: Draw)
    requires n > 0 && sc <= p && nc <= n
    ensures d.spamTaken <= p - sc && d.nonSpamTaken <= n - nc
    ensures d.failure == None ==> d.spamTaken + d.nonSpamTaken <= size
  {
    if size < 0 then Draw(0, 0, Some(IllegalArgument))
    else
      var spam := SpamWanted(p, n, batchSize, sc);
      if spam > size then Draw(size + 1, 0, Some(ArrayIndexOutOfBounds))
      else
        var start := NonSpamStart(p, n, batchSize, sc);
        var nonSpam := NonSpamWanted(p, n, batchSize, sc, nc);
        var firstBad := if start < 0 || start >= size then 0 else size - start;
        if nonSpam > firstBad then Draw(spam, firstBad + 1, Some(ArrayIndexOutOfBounds))
        else Draw(spam, nonSpam, None)
  }

  /** Slot `k` is an index of a `spamStatus` array of length `size`. */
  predicate InArray(k: int, size: int)
  {
    0 <= k < size
  }

  /** Every slot the two loops write lies inside a `spamStatus` array of length `size`. */
  ghost predicate WritesInBounds(p: nat, n: nat, batchSize: int, sc: nat, nc: nat, size: int)
    requires n > 0 && sc <= p && nc <= n
  {
    var start := NonSpamStart(p, n, batchSize, sc);
    && 0 <= size
    && (forall k :: 0 <= k < SpamWanted(p, n, batchSize, sc) ==> InArray(k, size))
    && (forall k :: start <= k < start + NonSpamWanted(p, n, batchSize, sc, nc) ==> InArray(k, size))
  }

  /** The draw completes exactly when no write lands outside the array. */
  lemma ComposeSucceedsIffInBounds(p: nat, n: nat, batchSize: int, sc: nat, nc: nat, size: int)
    requires n > 0 && sc <= p && nc <= n
    ensures Compose(p, n, batchSize, sc, nc, size).failure == None <==> WritesInBounds(p, n, batchSize, sc, nc, size)
  {
    var spam := SpamWanted(p, n, batchSize, sc);
    var start := NonSpamStart(p, n, batchSize, sc);
    var nonSpam := NonSpamWanted(p, n, batchSize, sc, nc);
    if size >= 0 && spam > size {
      assert !InArray(size, size);
    } else if size >= 0 && nonSpam > 0 && (start < 0 || start >= size || start + nonSpam > size) {
      var k := if start < 0 || start >= size then start else start + nonSpam - 1;
      assert start <= k < start + nonSpam && !InArray(k, size);
    }
  }

  /** When the request covers the batch size and the planned spam count fits, the draw completes. */
  lemma ComposeSucceeds(p: nat, n: nat, batchSize: int, sc: nat, nc: nat, size: int)
    requires n > 0 && sc <= p && nc <= n
    requires size >= batchSize && size >= 0
    requires sc < p ==> 0 <= PlannedSpam(p, n, batchSize) <= size
    ensures Compose(p, n, batchSize, sc, nc, size).failure == None
  {
    ComposeSucceedsIffInBounds(p, n, batchSize, sc, nc, size);
  }

  /**
   * With at least one spam document planned, every completed draw from a
   * state that is not exhausted takes at least one document.
   */
  lemma ComposeProgresses(p: nat, n: nat, batchSize: int, sc: nat, nc: nat, size: int)
    requires n > 0 && sc <= p && nc <= n
    requires sc < p || nc < n
    requires PlannedSpam(p, n, batchSize) >= 1
    ensures Compose(p, n, batchSize, sc, nc, size).failure == None ==>
      Compose(p, n, batchSize, sc, nc, size).spamTaken + Compose(p, n, batchSize, sc, nc, size).nonSpamTaken >= 1
  {
  }

  /**
   * With no spam document planned (a planned count of 0 or -1), once the
   * non-spam pool is drained the draw completes empty: no cursor moves while
   * spam remains.
   */
  lemma ComposeStalls(p: nat, n: nat, batchSize: int, sc: nat, size: int)
    requires n > 0 && sc < p && size >= 0
    requires PlannedSpam(p, n, batchSize) <= 0
    ensures Compose(p, n, batchSize, sc, n, size) == Draw(0, 0, None)
  {
  }

  /** With a planned spam count of -1, the first non-spam document drawn makes the write at slot -1 throw. */
  lemma ComposeFailsBelowZero(p: nat, n: nat, batchSize: int, sc: nat, nc: nat, size: int)
    requires n > 0 && sc < p && nc < n && size >= 0
    requires PlannedSpam(p, n, batchSize) == -1
    ensures Compose(p, n, batchSize, sc, nc, size) == Draw(0, 1, Some(ArrayIndexOutOfBounds))
  {
  }

  /** Three spam and nine non-spam documents, batch size four: no spam is drawn and four non-spam are. */
  lemma SmallBatchDrawsNoSpam()
    ensures Compose(3, 9, 4, 0, 0, 4) == Draw(0, 4, None)
  {
  }

  /** A negative size throws before any document is taken, as the list's capacity check does. */
  lemma NegativeSizeThrows(p: nat, n: nat, batchSize: int, sc: nat, nc: nat, size: int)
    requires n > 0 && sc <= p && nc <= n && size < 0
    ensures Compose(p, n, batchSize, sc, nc, size) == Draw(0, 0, Some(IllegalArgument))
  {
  }

  /**
   * With 1 spam and 49 non-spam documents and batch size 49 the exact ratio
   * plans no spam and the batch fills with non-spam documents (the double
   * product in Java rounds below 1 instead).
   */
  lemma ExactRatioFillsWithNonSpam()
    ensures Compose(1, 49, 49, 0, 0, 49) == Draw(0, 49, None)
  {
  }
}
