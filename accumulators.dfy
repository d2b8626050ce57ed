/** ResultData: the per-station statistics (min, max, sum, count) and its two update operations.
    Temperatures are whole numbers here (tenths of a degree); see README for what that leaves out. */
module Accumulators {

  function Min(a: int, b: int): int { if a <= b then a else b }
  function Max(a: int, b: int): int { if a <= b then b else a }

  /** The C# struct ResultData. It is a value type, so an update is a new value. */
  datatype ResultData = ResultData(min: int, max: int, sum: int, count: int)
  {
    /** The invariant the two updates keep: Min does not exceed Max. */
    predicate Ordered()
    {
      min <= max
    }

    /** Calculate(double value): fold one observation in. */
    function CalculateValue(value: int): (r: ResultData)
      ensures r.count == count + 1 && r.sum == sum + value
      ensures Ordered() ==> r.Ordered() && r.min <= value <= r.max
      ensures Ordered() ==> r.min == Min(min, value) && r.max == Max(max, value)
    {
      if value < min then ResultData(value, max, sum + value, count + 1)
      else if value > max then ResultData(min, value, sum + value, count + 1)
      else ResultData(min, max, sum + value, count + 1)
    }

    /** Calculate(ResultData other): merge another accumulator into this one. */
    function CalculateData(other: ResultData): (r: ResultData)
      ensures r.min == Min(min, other.min) && r.max == Max(max, other.max)
      ensures r.sum == sum + other.sum && r.count == count + other.count
      ensures Ordered() && other.Ordered() ==> r.Ordered()
    {
      var lo := if other.min < min then other.min else min;
      var hi := if other.max > max then other.max else max;
      ResultData(lo, hi, sum + other.sum, count + other.count)
    }
  }

  /** default(ResultData): what GetValueRefOrAddDefault puts in for a key seen for the first time. */
  const Default := ResultData(0, 0, 0, 0)

  function Sum(values: seq<int>): int
  {
    if values == [] then 0 else values[0] + Sum(values[1..])
  }

  lemma {:induction false} SumAppend(xs: seq<int>, ys: seq<int>)
    ensures Sum(xs + ys) == Sum(xs) + Sum(ys)
  {
    if xs == [] {
      assert xs + ys == ys;
    } else {
      assert (xs + ys)[1..] == xs[1..] + ys;
      SumAppend(xs[1..], ys);
    }
  }

  /** The statistics after folding `values`, in order, into `start` with Calculate(double). */
  function Accumulate(start: ResultData, values: seq<int>): (r: ResultData)
    ensures r.count == start.count + |values|
    ensures r.sum == start.sum + Sum(values)
    ensures start.Ordered() ==> r.Ordered() && r.min <= start.min && start.max <= r.max
    ensures start.Ordered() ==> forall i :: 0 <= i < |values| ==> r.min <= values[i] <= r.max
    ensures start.Ordered() ==> (r.min == start.min || r.min in values) && (r.max == start.max || r.max in values)
    decreases |values|
  {
    if values == [] then start else Accumulate(start.CalculateValue(values[0]), values[1..])
  }

  /** Folding a concatenation is folding the first part, then the second. */
  lemma {:induction false} AccumulateAppend(start: ResultData, xs: seq<int>, ys: seq<int>)
    ensures Accumulate(start, xs + ys) == Accumulate(Accumulate(start, xs), ys)
    decreases |xs|
  {
    if xs == [] {
      assert xs + ys == ys;
    } else {
      assert (xs + ys)[1..] == xs[1..] + ys;
      AccumulateAppend(start.CalculateValue(xs[0]), xs[1..], ys);
    }
  }

  /** Merging is commutative. */
  lemma CalculateDataCommutes(a: ResultData, b: ResultData)
    ensures a.CalculateData(b) == b.CalculateData(a)
  {
  }

  /** Merging is associative. */
  lemma CalculateDataAssociates(a: ResultData, b: ResultData, c: ResultData)
    ensures a.CalculateData(b).CalculateData(c) == a.CalculateData(b.CalculateData(c))
  {
  }

  /** The default value is neutral for a merge exactly when the accumulator's range covers zero. */
  lemma DefaultIsNeutral(a: ResultData)
    ensures a.CalculateData(Default) == a <==> a.min <= 0 <= a.max
  {
  }

  /** Every table entry starts from the default, so its range always covers zero. */
  lemma AccumulateFromDefault(values: seq<int>)
    ensures var r := Accumulate(Default, values);
      r.Ordered() && r.min <= 0 <= r.max && r.count == |values|
  {
  }

  /** Merging into an accumulation is the same as accumulating onto the merge. */
  lemma {:induction false} CalculateDataAccumulate(a: ResultData, b: ResultData, values: seq<int>)
    requires a.Ordered() && b.Ordered()
    ensures a.CalculateData(Accumulate(b, values)) == Accumulate(a.CalculateData(b), values)
    decreases |values|
  {
    if values != [] {
      var v := values[0];
      assert a.CalculateData(b.CalculateValue(v)) == a.CalculateData(b).CalculateValue(v);
      CalculateDataAccumulate(a, b.CalculateValue(v), values[1..]);
    }
  }

  /** Merging the statistics of two runs of observations, each started from the default,
      gives the statistics of the concatenated run: merging per-chunk results loses nothing. */
  lemma MergeOfAccumulations(xs: seq<int>, ys: seq<int>)
    ensures Accumulate(Default, xs).CalculateData(Accumulate(Default, ys)) == Accumulate(Default, xs + ys)
  {
    var a := Accumulate(Default, xs);
    CalculateDataAccumulate(a, Default, ys);
    DefaultIsNeutral(a);
    AccumulateAppend(Default, xs, ys);
  }

  /** As written, the first observation of a station does not set Min = Max = value: the entry
      starts from the default, so readings 12.0 and 14.0 leave Min at 0.0, not 12.0. */
  lemma FirstObservationStartsFromZero()
    ensures Accumulate(Default, [120, 140]) == ResultData(0, 140, 260, 2)
  {
  }
}
