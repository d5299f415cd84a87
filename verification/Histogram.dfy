/** The histogram of records per time slot (histogrammacspertime.cpp). */
module Histogram {
  import opened Seqs
  import opened MacText
  import opened Json

  /** Conversion to a 32-bit signed integer. */
  function ToInt32(n: int): int {
    (n + 0x8000_0000) % 0x1_0000_0000 - 0x8000_0000
  }

  /** Division of C++, which truncates towards zero. */
  function TruncDiv(a: int, b: int): int
    requires b > 0
  {
    if a >= 0 then a / b else -(-a / b)
  }

  datatype Params = Params(start: int, finish: int, step: int)

  predicate InRange(p: Params, t: int) {
    p.start <= t <= p.finish
  }

  /** The bucket of a time in range. */
  function Index(p: Params, t: int): int
    requires p.step > 0
  {
    ToInt32((t - p.start) / p.step)
  }

  function Count(b: map<int, nat>, i: int): nat {
    if i in b then b[i] else 0
  }

  function PutTime(b: map<int, nat>, p: Params, t: int): map<int, nat>
    requires p.step > 0
  {
    if InRange(p, t) then b[Index(p, t) := Count(b, Index(p, t)) + 1] else b
  }

  function PutTimes(b: map<int, nat>, p: Params, ts: seq<int>): map<int, nat>
    requires p.step > 0
  {
    if ts == [] then b else PutTime(PutTimes(b, p, ts[..|ts| - 1]), p, ts[|ts| - 1])
  }

  class HistogramMacsPerTime {
    const step: int
    const start: int
    const finish: int
    var histogram: map<int, nat>

    ghost predicate Valid()
    {
      step > 0
    }

    function Settings(): Params {
      Params(start, finish, step)
    }

    constructor (astart: int, afinish: int, astep: int)
      ensures Valid() && histogram == map[]
      ensures Settings() == Params(astart, afinish, if astep > 0 then astep else 1)
    {
      step := if astep > 0 then astep else 1;
      start, finish := astart, afinish;
      histogram := map[];
    }

    /**
      The number of whole slots, for ends in order: the index of the finish, or one more when the
      last slot is whole.  The result is converted to 64 bits without a sign, so that ends more than a
      step apart in the wrong order give a number near 2^64.
     */
    function Size(): (n: int)
      requires Valid()
      ensures start <= finish < start + 0x7FFF_FFFF_FFFF_FFFF ==> n * step <= finish - start + 1 < (n + 1) * step
      ensures start <= finish < start + 0x7FFF_FFFF_FFFF_FFFF && Indexable(Settings()) ==>
                n == Index(Settings(), finish) + if (finish - start + 1) % step == 0 then 1 else 0
      ensures start - 0x7FFF_FFFF_FFFF_FFFF < finish < start ==>
                n == (if start - finish - 1 < step then 0 else 0x1_0000_0000_0000_0000 - (start - finish - 1) / step)
    {
      SizeFits(Settings());
      SizeReversed(Settings());
      TruncDiv(finish - start + 1, step) % 0x1_0000_0000_0000_0000
    }

    method Put(t: int)
      requires Valid()
      modifies this
      ensures histogram == PutTime(old(histogram), Settings(), t)
    {
      if t < start || t > finish {
        return;
      }
      var index := ToInt32((t - start) / step);
      histogram := histogram[index := Count(histogram, index) + 1];
    }

    /** One object per bucket, in the order of the buckets. */
    method ToJson() returns (r: string)
      requires Valid()
      ensures r == ListText(BucketTexts(Settings(), histogram, SortedKeys(histogram.Keys)))
    {
      hide BucketText, SortedKeys;
      var keys := SortedKeys(histogram.Keys);
      ghost var texts := BucketTexts(Settings(), histogram, keys);
      r := "[";
      var i := 0;
      while i < |keys|
        invariant 0 <= i <= |keys|
        invariant r == "[" + WithCommas(texts[..i])
      {
        WithCommasNext(texts, i);
        r := r + BucketText(Settings(), histogram, keys[i]) + ",";
        i := i + 1;
      }
      assert texts[..i] == texts;
      r := r + "]";
      ClosedList(texts);
      r := CloseList(r);
    }
  }

  /** The label of bucket k: the start of its slot, with the product computed in 32 bits. */
  function Label(p: Params, k: int): int {
    p.start + ToInt32(k * p.step)
  }

  function BucketText(p: Params, b: map<int, nat>, k: int): string {
    "{\"t\":" + Dec(Label(p, k)) + ", \"c\":" + Dec(Count(b, k)) + "}"
  }

  function BucketTexts(p: Params, b: map<int, nat>, keys: seq<int>): (s: seq<string>)
    ensures |s| == |keys|
  {
    seq(|keys|, i requires 0 <= i < |keys| => BucketText(p, b, keys[i]))
  }

  // ---- What the buckets hold -------------------------------------------------------------

  predicate InSlot(p: Params, i: int, t: int)
    requires p.step > 0
  {
    InRange(p, t) && Index(p, t) == i
  }

  function SlotBy(p: Params, i: int): int -> bool
    requires p.step > 0
  {
    t => InSlot(p, i, t)
  }

  function RangeBy(p: Params): int -> bool {
    t => InRange(p, t)
  }

  lemma {:induction false} BucketCount(b: map<int, nat>, p: Params, ts: seq<int>, i: int)
    requires p.step > 0
    ensures Count(PutTimes(b, p, ts), i) == Count(b, i) + |Keep(ts, SlotBy(p, i))|
  {
    if ts != [] {
      BucketCount(b, p, ts[..|ts| - 1], i);
    }
  }

  /** The 32-bit index reaches every slot of the range. */
  ghost predicate Indexable(p: Params)
    requires p.step > 0
  {
    p.start <= p.finish ==> (p.finish - p.start) / p.step < 0x8000_0000
  }

  lemma DivBounds(d: int, s: int, i: int)
    requires d >= 0 && s > 0
    ensures d / s == i <==> i * s <= d < (i + 1) * s
  {
    var q, r := d / s, d % s;
    assert d == q * s + r && 0 <= r < s;
    if i < q {
      assert (i + 1) * s <= q * s;
    } else if i > q {
      assert (q + 1) * s <= i * s;
    }
  }

  lemma MulAbove(b: int, a: int, s: int)
    requires s > 0
    ensures a > b ==> (b + 1) * s <= a * s
  {
  }

  lemma DivMonotone(d: int, e: int, s: int)
    requires 0 <= d <= e && s > 0
    ensures 0 <= d / s <= e / s
  {
    var a, b := d / s, e / s;
    DivBounds(d, s, a);
    DivBounds(e, s, b);
    MulAbove(b, a, s);
  }

  /** Bucket i holds the times of slot [start + i * step, start + (i + 1) * step), and no index exceeds `WholeSlots`. */
  lemma {:induction false} SlotIsTimeSlot(p: Params, i: int, t: int)
    requires p.step > 0 && Indexable(p) && InRange(p, t)
    ensures Index(p, t) == i <==> p.start + i * p.step <= t < p.start + (i + 1) * p.step
    ensures 0 <= Index(p, t) <= WholeSlots(p)
  {
    var d, s := t - p.start, p.step;
    DivMonotone(d, p.finish - p.start, s);
    DivMonotone(p.finish - p.start, p.finish - p.start + 1, s);
    DivBounds(d, s, i);
    Int32InRange(d / s);
  }

  lemma Int32InRange(n: int)
    requires 0 <= n < 0x8000_0000
    ensures ToInt32(n) == n
  {
  }

  /**
    Every time in range is counted in its own slot exactly when the range has less than 2^31
    whole steps; beyond that the index wraps to a negative number.
   */
  lemma {:induction false} IndexGuard(p: Params)
    requires p.step > 0
    ensures (forall t :: InRange(p, t) ==> Index(p, t) == (t - p.start) / p.step) <==> Indexable(p)
  {
    if Indexable(p) {
      forall t | InRange(p, t) ensures Index(p, t) == (t - p.start) / p.step {
        DivMonotone(t - p.start, p.finish - p.start, p.step);
      }
    } else {
      var n := 0x8000_0000;
      var t := p.start + n * p.step;
      var q := (p.finish - p.start) / p.step;
      DivBounds(p.finish - p.start, p.step, q);
      MulMonotone(n, q, p.step);
      MulMonotone(n, n + 1, p.step);
      DivBounds(n * p.step, p.step, n);
      assert InRange(p, t) && Index(p, t) != n;
    }
  }

  /**
    Every time in range is counted under the label at which its slot starts exactly when the last slot
    starts less than 2^31 seconds after the first.
   */
  lemma {:induction false} LabelGuard(p: Params)
    requires p.step > 0
    ensures (forall t :: InRange(p, t) ==> Label(p, Index(p, t)) == p.start + (t - p.start) / p.step * p.step)
            <==> (p.finish - p.start) / p.step * p.step < 0x8000_0000
  {
    var q := (p.finish - p.start) / p.step;
    if q * p.step < 0x8000_0000 {
      forall t | InRange(p, t) ensures Label(p, Index(p, t)) == p.start + (t - p.start) / p.step * p.step {
        var i := (t - p.start) / p.step;
        DivMonotone(t - p.start, p.finish - p.start, p.step);
        MulMonotone(i, q, p.step);
        MulMonotone(0, i, p.step);
        AtMostProduct(i, p.step);
        Int32InRange(i);
        Int32InRange(i * p.step);
      }
    } else {
      NotNegative(p.finish - p.start, p.step);
      assert InRange(p, p.finish) && Label(p, Index(p, p.finish)) < p.start + 0x8000_0000;
    }
  }

  lemma AtMostProduct(i: int, s: int)
    requires 0 <= i && s > 0
    ensures i <= i * s
  {
  }

  lemma NotNegative(d: int, s: int)
    requires s > 0 && d / s * s > 0
    ensures d >= 0
  {
  }

  /** For instance: over the whole range of times in steps of two seconds. */
  lemma WrongLabel()
    ensures var p := Params(0, 0xFFFF_FFFF, 2);
            && Indexable(p) && InRange(p, 0x8000_0000) && Index(p, 0x8000_0000) == 0x4000_0000
            && Label(p, 0x4000_0000) == -0x8000_0000
  {
  }

  /** The sum of n buckets from bucket i on. */
  function BucketSum(b: map<int, nat>, i: int, n: nat): nat {
    if n == 0 then 0 else BucketSum(b, i, n - 1) + Count(b, i + n - 1)
  }

  lemma {:induction false} SumAfterPut(b: map<int, nat>, p: Params, t: int, i: int, n: nat)
    requires p.step > 0
    ensures BucketSum(PutTime(b, p, t), i, n)
            == BucketSum(b, i, n) + if InRange(p, t) && i <= Index(p, t) < i + n then 1 else 0
  {
    if n > 0 {
      SumAfterPut(b, p, t, i, n - 1);
    }
  }

  /** The whole slots of a range with its ends in order: the value of `Size()`. */
  function WholeSlots(p: Params): nat
    requires p.step > 0 && p.start <= p.finish
  {
    DivMonotone(0, p.finish - p.start + 1, p.step);
    TruncDiv(p.finish - p.start + 1, p.step)
  }

  lemma DivNext(d: int, s: int)
    requires d >= 0 && s > 0
    ensures (d + 1) / s == d / s + if (d + 1) % s == 0 then 1 else 0
  {
    var q, r := (d + 1) / s, (d + 1) % s;
    assert d + 1 == q * s + r && 0 <= r < s;
    if r == 0 {
      DivBounds(d, s, q - 1);
      assert (q - 1) * s == q * s - s;
    } else {
      DivBounds(d, s, q);
    }
  }

  lemma SizeFits(p: Params)
    requires p.step > 0
    ensures p.start <= p.finish < p.start + 0x7FFF_FFFF_FFFF_FFFF ==>
              var n := TruncDiv(p.finish - p.start + 1, p.step);
              && n % 0x1_0000_0000_0000_0000 == n
              && n * p.step <= p.finish - p.start + 1 < (n + 1) * p.step
              && (Indexable(p) ==> n == Index(p, p.finish) + if (p.finish - p.start + 1) % p.step == 0 then 1 else 0)
  {
    if p.start <= p.finish < p.start + 0x7FFF_FFFF_FFFF_FFFF {
      var d := p.finish - p.start;
      DivAtMost(d + 1, p.step);
      DivMonotone(0, d + 1, p.step);
      DivMonotone(0, d, p.step);
      DivBounds(d + 1, p.step, (d + 1) / p.step);
      DivNext(d, p.step);
    }
  }

  lemma SizeReversed(p: Params)
    requires p.step > 0
    ensures p.start - 0x7FFF_FFFF_FFFF_FFFF < p.finish < p.start ==>
              var d := p.start - p.finish - 1;
              TruncDiv(p.finish - p.start + 1, p.step) % 0x1_0000_0000_0000_0000
              == if d < p.step then 0 else 0x1_0000_0000_0000_0000 - d / p.step
  {
    if p.start - 0x7FFF_FFFF_FFFF_FFFF < p.finish < p.start {
      var d := p.start - p.finish - 1;
      DivAtMost(d, p.step);
      DivBounds(d, p.step, 0);
      DivMonotone(0, d, p.step);
    }
  }

  /** Counting loses nothing: the buckets 0 to `WholeSlots` add up to the number of times in range. */
  lemma {:induction false} TotalCount(p: Params, ts: seq<int>)
    requires p.step > 0 && Indexable(p) && p.start <= p.finish
    ensures BucketSum(PutTimes(map[], p, ts), 0, WholeSlots(p) + 1) == |Keep(ts, RangeBy(p))|
  {
    hide Index, PutTime, BucketSum;
    var n := WholeSlots(p) + 1;
    if ts == [] {
      EmptySum(0, n);
    } else {
      var init, t := ts[..|ts| - 1], ts[|ts| - 1];
      TotalCount(p, init);
      SumAfterPut(PutTimes(map[], p, init), p, t, 0, n);
      if InRange(p, t) {
        SlotIsTimeSlot(p, Index(p, t), t);
      }
    }
  }

  lemma {:induction false} EmptySum(i: int, n: nat)
    ensures BucketSum(map[], i, n) == 0
  {
    if n > 0 {
      EmptySum(i, n - 1);
    }
  }

  lemma MulMonotone(a: int, b: int, s: int)
    requires a <= b && s > 0
    ensures a * s <= b * s
  {
  }

  lemma DivByProduct(d: int, s: int, k: int)
    requires d >= 0 && s > 0 && k > 0
    ensures k * s > 0 && d / (k * s) == d / s / k
  {
    var a := d / s;
    DivBounds(d, s, a);
    assert a >= 0 && k * s > 0;
    var b := a / k;
    DivBounds(a, k, b);
    MulMonotone(b * k, a, s);
    MulMonotone(a + 1, (b + 1) * k, s);
    assert b * k * s == b * (k * s) && (b + 1) * k * s == (b + 1) * (k * s);
    DivBounds(d, k * s, b);
  }

  /** With k times the step, bucket j is the sum of k neighbouring buckets. */
  ghost predicate Coarsens(p: Params, k: int, ts: seq<int>, j: int)
    requires p.step > 0 && k > 0
  {
    MulMonotone(1, k, p.step);
    Count(PutTimes(map[], p.(step := k * p.step), ts), j) == BucketSum(PutTimes(map[], p, ts), j * k, k)
  }

  lemma {:induction false} CoarsensIndexable(p: Params, k: int, ts: seq<int>, j: int)
    requires p.step > 0 && k > 0 && Indexable(p)
    ensures Coarsens(p, k, ts, j)
  {
    hide Index, BucketSum, InRange, Indexable;
    MulMonotone(1, k, p.step);
    if ts == [] {
      EmptySum(j * k, k);
    } else {
      var init, t := ts[..|ts| - 1], ts[|ts| - 1];
      CoarsensIndexable(p, k, init, j);
      SumAfterPut(PutTimes(map[], p, init), p, t, j * k, k);
      if InRange(p, t) {
        CoarseIndex(p, k, t, j);
      }
      assert InRange(p.(step := k * p.step), t) == InRange(p, t) by { SameRange(p, k * p.step, t); }
    }
  }

  lemma SameRange(p: Params, k: int, t: int)
    ensures InRange(p.(step := k), t) == InRange(p, t)
  {
  }

  /** The coarse bucket of a time is j exactly when its own is one of the k that make it up. */
  lemma CoarseIndex(p: Params, k: int, t: int, j: int)
    requires p.step > 0 && k > 0 && k * p.step > 0 && Indexable(p) && InRange(p, t)
    ensures Index(p.(step := k * p.step), t) == j <==> j * k <= Index(p, t) < j * k + k
  {
    hide ToInt32;
    IndexGuard(p);
    var d := t - p.start;
    DivByProduct(d, p.step, k);
    DivMonotone(d, p.finish - p.start, p.step);
    Quotient(d / p.step, k, j);
    Int32InRange(d / p.step / k);
  }

  lemma Quotient(e: int, k: int, j: int)
    requires e >= 0 && k > 0
    ensures 0 <= e / k <= e && (e / k == j <==> j * k <= e < j * k + k)
  {
    DivBounds(e, k, j);
    DivMonotone(0, e, k);
    DivAtMost(e, k);
    assert (j + 1) * k == j * k + k;
  }

  lemma DivAtMost(d: int, k: int)
    requires d >= 0 && k > 0
    ensures d / k <= d
  {
    var q := d / k;
    DivBounds(d, k, q);
    assert q >= 0 ==> q <= q * k;
  }

  /** Coarsening holds, whatever the times and the bucket, exactly when the range is indexable or nothing is changed. */
  lemma {:induction false} Coarsening(p: Params, k: int)
    requires p.step > 0 && k > 0
    ensures (forall ts: seq<int>, j: int :: Coarsens(p, k, ts, j)) <==> k == 1 || Indexable(p)
  {
    hide Coarsens;
    if k == 1 {
      forall ts: seq<int>, j: int ensures Coarsens(p, k, ts, j) {
        CoarsensOnce(p, ts, j);
      }
    } else if Indexable(p) {
      forall ts: seq<int>, j: int ensures Coarsens(p, k, ts, j) {
        CoarsensIndexable(p, k, ts, j);
      }
    } else {
      FirstWrapped(p, k);
      assert !Coarsens(p, k, [p.start + 0x8000_0000 * p.step], 0x8000_0000 / k);
    }
  }

  lemma CoarsensOnce(p: Params, ts: seq<int>, j: int)
    requires p.step > 0
    ensures Coarsens(p, 1, ts, j)
  {
    var b := PutTimes(map[], p, ts);
    assert p.(step := 1 * p.step) == p && BucketSum(b, j, 1) == BucketSum(b, j, 0) + Count(b, j);
  }

  /** The first time whose index wraps is counted below zero, but in its place with a larger step. */
  lemma FirstWrapped(p: Params, k: int)
    requires p.step > 0 && k > 1 && !Indexable(p)
    ensures !Coarsens(p, k, [p.start + 0x8000_0000 * p.step], 0x8000_0000 / k)
  {
    hide ToInt32, Index, InRange, BucketSum;
    var n := 0x8000_0000;
    var t, j := p.start + n * p.step, n / k;
    MulMonotone(1, k, p.step);
    WrappedTime(p, t);
    WrappedCoarse(p, k, t);
    SameRange(p, k * p.step, t);
    var coarse := p.(step := k * p.step);
    PutSingle(p, t);
    PutSingle(coarse, t);
    SumAfterPut(map[], p, t, j * k, k);
    EmptySum(j * k, k);
    MulMonotone(0, j, k);
  }

  lemma PutSingle(p: Params, t: int)
    requires p.step > 0
    ensures PutTimes(map[], p, [t]) == PutTime(map[], p, t)
  {
    assert [t][..0] == [] && PutTimes(map[], p, []) == map[];
  }

  lemma WrappedCoarse(p: Params, k: int, t: int)
    requires p.step > 0 && k > 1 && k * p.step > 0 && t == p.start + 0x8000_0000 * p.step
    ensures 0 <= 0x8000_0000 / k && Index(p.(step := k * p.step), t) == 0x8000_0000 / k
  {
    hide ToInt32;
    var n := 0x8000_0000;
    MulMonotone(0, n, p.step);
    DivByProduct(n * p.step, p.step, k);
    DivBounds(n * p.step, p.step, n);
    MulMonotone(n, n + 1, p.step);
    HalfAtMost(n, k);
    Int32InRange(n / k);
  }

  lemma HalfAtMost(n: int, k: int)
    requires n > 0 && k > 1
    ensures 0 <= n / k < n
  {
    Quotient(n, k, n);
    MulMonotone(2, k, n);
  }

  lemma WrappedTime(p: Params, t: int)
    requires p.step > 0 && !Indexable(p) && t == p.start + 0x8000_0000 * p.step
    ensures InRange(p, t) && (t - p.start) / p.step == 0x8000_0000 && Index(p, t) == -0x8000_0000
  {
    var n, q := 0x8000_0000, (p.finish - p.start) / p.step;
    DivBounds(p.finish - p.start, p.step, q);
    MulMonotone(n, q, p.step);
    MulMonotone(n, n + 1, p.step);
    MulMonotone(0, n, p.step);
    DivBounds(n * p.step, p.step, n);
  }
}
