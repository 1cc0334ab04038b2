/** Sums and means over columns whose cells may be missing. The two scripts mix two
    conventions: pandas reductions skip missing cells, while Python's builtin `sum`
    lets one missing (NaN) cell poison the result. */
module Sums {
  import opened Optional
  import opened Seqs

  /** Every present cell is non-negative. */
  predicate AllNonNegative(xs: seq<Option<real>>) {
    forall i :: 0 <= i < |xs| && xs[i].Some? ==> xs[i].value >= 0.0
  }

  /** pandas `Series.sum()`: missing cells are skipped, an empty or all-missing column sums to 0. */
  function SumPresent(xs: seq<Option<real>>): (s: real)
    ensures AllNonNegative(xs) ==> s >= 0.0
  {
    if |xs| == 0 then 0.0 else xs[0].GetOr(0.0) + SumPresent(xs[1..])
  }

  /** A column whose present cells are all zero sums to zero. */
  lemma {:induction false} SumPresentOfZeros(xs: seq<Option<real>>)
    requires forall i :: 0 <= i < |xs| && xs[i].Some? ==> xs[i].value == 0.0
    ensures SumPresent(xs) == 0.0
    decreases |xs|
  {
    if |xs| > 0 {
      assert forall i :: 0 <= i < |xs[1..]| ==> xs[1..][i] == xs[i + 1];
      SumPresentOfZeros(xs[1..]);
    }
  }

  /** The cell holds a number. */
  predicate IsPresent(x: Option<real>) {
    x.Some?
  }

  /** Number of present cells (`Series.count()`). */
  function CountPresent(xs: seq<Option<real>>): (n: nat)
    ensures n <= |xs|
    ensures n == 0 <==> forall i :: 0 <= i < |xs| ==> xs[i].None?
  {
    if |xs| == 0 then 0 else (if xs[0].Some? then 1 else 0) + CountPresent(xs[1..])
  }

  /** The count is the length of the column with its missing cells dropped. */
  lemma {:induction false} CountPresentIsPresentCells(xs: seq<Option<real>>)
    ensures CountPresent(xs) == |Filter(xs, IsPresent)|
    decreases |xs|
  {
    if |xs| > 0 {
      CountPresentIsPresentCells(xs[1..]);
    }
  }

  /** pandas `Series.mean()`: the mean of the present cells, missing when there are none. */
  function MeanPresent(xs: seq<Option<real>>): (m: Option<real>)
    ensures m.Some? <==> CountPresent(xs) > 0
  {
    var n := CountPresent(xs);
    if n == 0 then None else Some(SumPresent(xs) / (n as real))
  }

  /** A present mean times the number of present cells gives back their sum. */
  lemma {:induction false} MeanTimesCount(xs: seq<Option<real>>)
    ensures MeanPresent(xs).Some? ==> MeanPresent(xs).value * (CountPresent(xs) as real) == SumPresent(xs)
  {
    var c := CountPresent(xs);
    if c != 0 {
      DivideBack(SumPresent(xs), c as real);
    }
  }

  /** The mean of non-negative cells is non-negative. */
  lemma {:induction false} MeanNonNegative(xs: seq<Option<real>>)
    requires AllNonNegative(xs)
    ensures MeanPresent(xs).Some? ==> MeanPresent(xs).value >= 0.0
  {
    var c := CountPresent(xs);
    if c != 0 {
      DivideBack(SumPresent(xs), c as real);
    }
  }

  /** Dividing by a positive count and multiplying back is the identity and keeps the sign. */
  lemma DivideBack(s: real, n: real)
    requires n > 0.0
    ensures (s / n) * n == s
    ensures s >= 0.0 ==> s / n >= 0.0
  {
  }

  /** Python's builtin `sum` over floats: one missing (NaN) term makes the whole sum missing. */
  function SumStrict(xs: seq<Option<real>>): (s: Option<real>)
    ensures s.Some? <==> forall i :: 0 <= i < |xs| ==> xs[i].Some?
    ensures s.Some? ==> s.value == SumPresent(xs)
  {
    if |xs| == 0 then Some(0.0)
    else match (xs[0], SumStrict(xs[1..]))
      case (Some(x), Some(rest)) => Some(x + rest)
      case _ => None
  }

  /** Summing skipping missing cells is additive over concatenation. */
  lemma {:induction false} SumPresentAppend(a: seq<Option<real>>, b: seq<Option<real>>)
    ensures SumPresent(a + b) == SumPresent(a) + SumPresent(b)
    decreases |a|
  {
    if |a| == 0 {
      assert a + b == b;
    } else {
      assert (a + b)[1..] == a[1..] + b;
      SumPresentAppend(a[1..], b);
    }
  }
}
