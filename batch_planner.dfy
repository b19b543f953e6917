/**
 * The batch arithmetic of process_images.py: how many logical images there
 * are, and how `range(0, total_images, batch_size)` cuts them into batches
 * with a zero-padded id, a start and an exclusive end.
 */
module BatchPlanner {
  import opened Strings
  import opened Decimal

  /** One batch: its id, its first image index and the index one past its last image. */
  datatype Batch = Batch(id: string, start: nat, end: nat)

  /**
   * `len(image_list) // num_channels + 1`: the number of whole groups of
   * `numChannels` files, plus one more.
   */
  function TotalImages(fileCount: nat, numChannels: nat): (total: nat)
    requires numChannels > 0
    ensures total >= 1
    ensures (total - 1) * numChannels <= fileCount < total * numChannels
  {
    fileCount / numChannels + 1
  }

  lemma {:induction false} Pow10Monotone(m: nat, n: nat)
    requires m <= n
    ensures Pow10(m) <= Pow10(n)
    decreases n
  {
    if m < n {
      Pow10Monotone(m, n - 1);
    }
  }

  /** The number of digits of n is the d with 10^(d-1) <= n < 10^d. */
  lemma DecimalLengthBounds(n: nat)
    ensures n < Pow10(|NatToDecimal(n)|)
    ensures n >= 1 ==> Pow10(|NatToDecimal(n)| - 1) <= n
  {
    var s := NatToDecimal(n);
    DigitsValueOfDecimal(n);
    DigitsValueBound(s);
    if n >= 1 {
      DigitsValueFirst(s);
      assert DigitValue(s[0]) >= 1;
    }
  }

  /** Numbers below 1000 are the ones written with at most three digits. */
  lemma ThreeDigits(n: nat)
    ensures |NatToDecimal(n)| <= 3 <==> n < 1000
  {
    var d := |NatToDecimal(n)|;
    DecimalLengthBounds(n);
    if n < 1000 && d > 3 {
      Pow10Monotone(3, d - 1);
    }
    if n >= 1000 && d <= 3 {
      Pow10Monotone(d, 3);
    }
  }

  /** `str(k + 1).zfill(3)`: the id of the batch with 0-based ordinal k. */
  function BatchId(k: nat): (id: string)
    ensures AllDigits(id) && DigitsValue(id) == k + 1
    ensures |id| == 3 <==> k < 999
    ensures |id| >= 3
    ensures k >= 999 ==> id == NatToDecimal(k + 1)
  {
    var digits := NatToDecimal(k + 1);
    DigitsValueOfDecimal(k + 1);
    ZFillValue(digits, 3);
    ThreeDigits(k + 1);
    ZFill(digits, 3)
  }

  /** Up to ordinal 999, comparing ids as strings is comparing batch numbers. */
  lemma BatchIdOrder(k1: nat, k2: nat)
    requires k1 < 999 && k2 < 999
    ensures LexLess(BatchId(k1), BatchId(k2)) <==> k1 < k2
  {
    LexLessIsNumericLess(BatchId(k1), BatchId(k2));
  }

  /** From the thousandth batch on, string order and batch order part ways: "1000" < "999". */
  lemma BatchIdOrderBreaksAtThousand()
    ensures BatchId(998) == "999" && BatchId(999) == "1000"
    ensures LexLess(BatchId(999), BatchId(998))
  {
    assert NatToDecimal(999) == "999";
    assert NatToDecimal(1000) == "1000";
  }

  /** `len(range(0, total, size))`: the least n with n * size >= total. */
  function NumBatches(total: nat, size: nat): (n: nat)
    requires size > 0
    ensures total <= n * size
    ensures n > 0 ==> (n - 1) * size < total
  {
    var n := (total + size - 1) / size;
    assert (n - 1) * size == n * size - size;
    n
  }

  /** The batch count is the only n with (n - 1) * size < total <= n * size. */
  lemma NumBatchesUnique(total: nat, size: nat, n: nat)
    requires size > 0 && total <= n * size && (n > 0 ==> (n - 1) * size < total)
    ensures n == NumBatches(total, size)
  {
    var m := NumBatches(total, size);
    if n < m {
      MulLe(n, m - 1, size);
    } else if m < n {
      MulLe(m, n - 1, size);
    }
  }

  function Min(a: int, b: int): int
  {
    if a <= b then a else b
  }

  /**
   * The batch with 0-based ordinal k: it starts at `k * size`, ends at
   * `min(start + size, total)` and its id is the ordinal plus one, padded.
   */
  function BatchAt(total: nat, size: nat, k: nat): Batch
  {
    Batch(BatchId(k), k * size, Min(k * size + size, total))
  }

  /** All batches the loop of process_images.py visits, in order. */
  function Plan(total: nat, size: nat): (bs: seq<Batch>)
    requires size > 0
  {
    seq(NumBatches(total, size), k requires 0 <= k => BatchAt(total, size, k))
  }

  lemma MulLe(a: nat, b: nat, size: nat)
    requires a <= b
    ensures a * size <= b * size
  {
  }

  lemma MulSucc(n: nat, size: nat)
    ensures (n + 1) * size == n * size + size
  {
  }

  lemma MulStep(a: nat, b: nat, size: nat)
    requires a < b
    ensures a * size + size <= b * size
  {
    MulLe(a + 1, b, size);
    assert (a + 1) * size == a * size + size;
  }

  /** One batch of the plan: it is non-empty, inside the range and at most `size` long; all but the last are full. */
  lemma PlanBatchBounds(total: nat, size: nat, k: nat)
    requires size > 0 && k < NumBatches(total, size)
    ensures var b := Plan(total, size)[k];
      && b.start == k * size
      && b.start < b.end <= total
      && b.end - b.start <= size
      && (k < NumBatches(total, size) - 1 ==> b.end == b.start + size)
      && (k == NumBatches(total, size) - 1 ==> b.end == total)
  {
    var n := NumBatches(total, size);
    MulLe(k, n - 1, size);
    if k < n - 1 {
      MulLe(k + 1, n - 1, size);
    }
    assert (k + 1) * size == k * size + size;
    assert n * size == (n - 1) * size + size;
  }

  /**
   * The batches partition [0, total): the first starts at 0, each starts
   * where the previous ended, the last ends at total, none is empty or
   * longer than `size`, and only the last may be shorter.
   */
  lemma PlanPartitions(total: nat, size: nat)
    requires size > 0
    ensures var bs := Plan(total, size);
      && (bs == [] <==> total == 0)
      && (bs != [] ==> bs[0].start == 0 && bs[|bs| - 1].end == total)
      && (forall k :: 0 <= k < |bs| - 1 ==> bs[k].end == bs[k + 1].start)
      && (forall k :: 0 <= k < |bs| ==> bs[k].start < bs[k].end <= total && bs[k].end - bs[k].start <= size)
      && (forall k :: 0 <= k < |bs| - 1 ==> bs[k].end - bs[k].start == size)
  {
    var bs := Plan(total, size);
    forall k | 0 <= k < |bs|
      ensures bs[k].start < bs[k].end <= total && bs[k].end - bs[k].start <= size
      ensures k < |bs| - 1 ==> bs[k].end == bs[k].start + size
      ensures k == |bs| - 1 ==> bs[k].end == total
    {
      PlanBatchBounds(total, size, k);
    }
    forall k | 0 <= k < |bs| - 1
      ensures bs[k].end == bs[k + 1].start
    {
      PlanBatchBounds(total, size, k + 1);
      assert (k + 1) * size == k * size + size;
    }
  }

  /** `x // size` and `x % size` are the only quotient and remainder. */
  lemma DivModUnique(x: nat, size: nat, q: nat, r: nat)
    requires size > 0 && x == q * size + r && r < size
    ensures x / size == q && x % size == r
  {
    var q', r' := x / size, x % size;
    assert x == q' * size + r';
    if q' < q {
      MulStep(q', q, size);
    } else if q < q' {
      MulStep(q, q', size);
    }
  }

  /** Index x lies in the batch with ordinal `x // size`. */
  lemma PlanBatchOf(total: nat, size: nat, x: nat)
    requires size > 0 && x < total
    ensures x / size < |Plan(total, size)|
    ensures Plan(total, size)[x / size].start <= x < Plan(total, size)[x / size].end
  {
    var n := NumBatches(total, size);
    var k := x / size;
    assert k * size <= x < k * size + size;
    if k >= n {
      MulLe(n, k, size);
    }
    PlanBatchBounds(total, size, k);
  }

  /** Every index in [0, total) lies in exactly one batch, and no other index lies in any. */
  lemma PlanCovers(total: nat, size: nat, x: int)
    requires size > 0
    ensures var bs := Plan(total, size);
      && (0 <= x < total <==> exists k :: 0 <= k < |bs| && bs[k].start <= x < bs[k].end)
      && (forall k1, k2 ::
            (0 <= k1 < |bs| && 0 <= k2 < |bs| && bs[k1].start <= x < bs[k1].end && bs[k2].start <= x < bs[k2].end)
            ==> k1 == k2)
  {
    var bs := Plan(total, size);
    if 0 <= x < total {
      PlanBatchOf(total, size, x);
    }
    forall k | 0 <= k < |bs| && bs[k].start <= x < bs[k].end
      ensures 0 <= x < total
    {
      PlanBatchBounds(total, size, k);
    }
    forall k1, k2 | 0 <= k1 < |bs| && 0 <= k2 < |bs| && bs[k1].start <= x < bs[k1].end && bs[k2].start <= x < bs[k2].end
      ensures k1 == k2
    {
      PlanBatchBounds(total, size, k1);
      PlanBatchBounds(total, size, k2);
      if k1 < k2 {
        MulStep(k1, k2, size);
      } else if k2 < k1 {
        MulStep(k2, k1, size);
      }
    }
  }

  /** The number of batches is ceil(total / size); the last batch holds the remainder, if any. */
  lemma PlanCount(total: nat, size: nat)
    requires size > 0
    ensures var bs := Plan(total, size);
      && |bs| * size >= total
      && (total > 0 ==> (|bs| - 1) * size < total)
      && (bs != [] ==> bs[|bs| - 1].end - bs[|bs| - 1].start == if total % size == 0 then size else total % size)
  {
    var bs := Plan(total, size);
    var n := |bs|;
    if n > 0 {
      PlanBatchBounds(total, size, n - 1);
      LastBatchLength(total, size, n - 1, bs[n - 1].end - bs[n - 1].start);
    }
  }

  /** When q full batches come before a last one of length m, that length is what `%` leaves, or a full batch. */
  lemma LastBatchLength(total: nat, size: nat, q: nat, m: nat)
    requires size > 0 && 0 < m <= size && total == q * size + m
    ensures m == if total % size == 0 then size else total % size
  {
    if m == size {
      MulSucc(q, size);
      DivModUnique(total, size, q + 1, 0);
    } else {
      DivModUnique(total, size, q, m);
    }
  }

  /** Batch ids are the ordinals 1, 2, ... padded: pairwise distinct, and sorted as strings when there are at most 999. */
  lemma PlanIds(total: nat, size: nat)
    requires size > 0
    ensures var bs := Plan(total, size);
      && (forall k :: 0 <= k < |bs| ==> DigitsValue(bs[k].id) == k + 1)
      && (forall k1, k2 :: 0 <= k1 < |bs| && 0 <= k2 < |bs| && bs[k1].id == bs[k2].id ==> k1 == k2)
      && (|bs| <= 999 ==> forall k1, k2 :: 0 <= k1 < |bs| && 0 <= k2 < |bs| ==> (LexLess(bs[k1].id, bs[k2].id) <==> k1 < k2))
  {
    var bs := Plan(total, size);
    if |bs| <= 999 {
      forall k1, k2 | 0 <= k1 < |bs| && 0 <= k2 < |bs|
        ensures LexLess(bs[k1].id, bs[k2].id) <==> k1 < k2
      {
        BatchIdOrder(k1, k2);
      }
    }
  }

  /** 10 images in batches of 4: ("001", 0, 4), ("002", 4, 8), ("003", 8, 10). */
  lemma PlanExample()
    ensures Plan(10, 4) == [Batch("001", 0, 4), Batch("002", 4, 8), Batch("003", 8, 10)]
  {
    assert NumBatches(10, 4) == 3;
    assert BatchId(0) == "001" && BatchId(1) == "002" && BatchId(2) == "003";
  }

  /** Because of the `+ 1`, there is always at least one batch, even for an empty image directory. */
  lemma PlanNeverEmpty(fileCount: nat, numChannels: nat, size: nat)
    requires numChannels > 0 && size > 0
    ensures |Plan(TotalImages(fileCount, numChannels), size)| >= 1
    ensures Plan(TotalImages(0, numChannels), size) == [Batch("001", 0, 1)]
  {
    PlanPartitions(TotalImages(fileCount, numChannels), size);
    var bs := Plan(1, size);
    PlanPartitions(1, size);
    PlanCount(1, size);
    assert |bs| == 1;
    assert BatchId(0) == "001";
  }
}
