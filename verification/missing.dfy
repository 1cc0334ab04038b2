/** The missing-record estimate: for every (material, unit) pair that occurs, 10% of the
    group's flagged rows times the group's mean moved value, summed with Python's `sum`. */
module MissingRecords {
  import opened Optional
  import opened Seqs
  import opened Sums
  import opened Movements
  import opened Valuation

  /** Fraction of a group's flagged rows assumed to hide a missing record. */
  const MissingRate: real := 0.1

  /** Row mask of one (material, unit) group. */
  function InGroup(m: string, u: string): ScoredMovement -> bool {
    (r: ScoredMovement) => r.material == m && r.unit == u
  }

  /** All rows of one (material, unit) group, in input order. */
  function GroupOf(rs: seq<ScoredMovement>, m: string, u: string): seq<ScoredMovement> {
    Filter(rs, InGroup(m, u))
  }

  /** Number of flagged rows (`len(subset[subset['severidade'].isin(...)])`). */
  function FlaggedCount(g: seq<ScoredMovement>): (n: nat)
    ensures n <= |g|
  {
    if |g| == 0 then 0 else (if IsAnomaly(g[0]) then 1 else 0) + FlaggedCount(g[1..])
  }

  /** The count is the number of rows the anomaly mask selects from the group. */
  lemma {:induction false} FlaggedCountIsMaskSize(g: seq<ScoredMovement>)
    ensures FlaggedCount(g) == |Filter(g, IsAnomaly)|
    decreases |g|
  {
    if |g| > 0 {
      FlaggedCountIsMaskSize(g[1..]);
    }
  }

  /** A group has no flagged-row count exactly when none of its rows is flagged. */
  lemma {:induction false} NoFlaggedRows(g: seq<ScoredMovement>)
    ensures FlaggedCount(g) == 0 <==> forall x :: x in g ==> !IsAnomaly(x)
    decreases |g|
  {
    if |g| > 0 {
      NoFlaggedRows(g[1..]);
      assert g == [g[0]] + g[1..];
    }
  }

  /** Each flagged row of a group stands for a tenth of a missing record worth the group's
      mean value; unflagged rows stand for nothing. */
  function FlaggedShare(g: seq<ScoredMovement>, mean: real): (s: real)
    ensures mean >= 0.0 ==> s >= 0.0
    ensures FlaggedCount(g) == 0 ==> s == 0.0
  {
    if |g| == 0 then 0.0
    else (if IsAnomaly(g[0]) then MissingRate * mean else 0.0) + FlaggedShare(g[1..], mean)
  }

  /** `n` copies of `x` added up. */
  function Repeat(n: nat, x: real): real {
    if n == 0 then 0.0 else x + Repeat(n - 1, x)
  }

  /** Adding `n` copies of `x` is multiplying `x` by `n`. */
  lemma {:induction false} RepeatIsProduct(n: nat, x: real)
    ensures Repeat(n, x) == (n as real) * x
  {
    if n > 0 {
      RepeatIsProduct(n - 1, x);
      assert (n as real) * x == x + ((n - 1) as real) * x;
    }
  }

  /** The flagged rows' shares add up to one share per flagged row. */
  lemma {:induction false} FlaggedShareRepeats(g: seq<ScoredMovement>, mean: real)
    ensures FlaggedShare(g, mean) == Repeat(FlaggedCount(g), MissingRate * mean)
    decreases |g|
  {
    if |g| > 0 {
      FlaggedShareRepeats(g[1..], mean);
    }
  }

  /** The per-row shares add up to `0.1 * (flagged count) * mean`, the product the script forms. */
  lemma {:induction false} FlaggedShareLaw(g: seq<ScoredMovement>, mean: real)
    ensures FlaggedShare(g, mean) == (FlaggedCount(g) as real) * MissingRate * mean
  {
    FlaggedShareRepeats(g, mean);
    RepeatIsProduct(FlaggedCount(g), MissingRate * mean);
  }

  /** Estimated missing-record impact of one group from its rows (flagged or not); missing
      (NaN) when no row has a value, even when nothing is flagged, because `0 * NaN` is NaN. */
  function GroupMissingImpact(g: seq<ScoredMovement>, prices: PriceTable): Option<real>
  {
    var mean := MeanPresent(Values(g, prices));
    if mean.None? then None else Some(FlaggedShare(g, mean.value))
  }

  /** A group's estimate is present exactly when at least one of its rows has a value. */
  lemma {:induction false} GroupMissingImpactPresence(g: seq<ScoredMovement>, prices: PriceTable)
    ensures GroupMissingImpact(g, prices).Some? <==> exists x :: x in g && Value(x, prices).Some?
  {
    PricedRowIffCounted(g, prices);
  }

  /** Given the group's mean value, its estimate is 10% of its flagged-row count times that
      mean, and zero for a group without flagged rows. */
  lemma {:induction false} GroupMissingImpactLaw(g: seq<ScoredMovement>, prices: PriceTable, mean: real)
    requires MeanPresent(Values(g, prices)) == Some(mean)
    ensures GroupMissingImpact(g, prices) == Some((FlaggedCount(g) as real) * MissingRate * mean)
    ensures FlaggedCount(g) == 0 ==> GroupMissingImpact(g, prices) == Some(0.0)
  {
    FlaggedShareLaw(g, mean);
  }

  /** A group's value column has a present cell exactly when the group has a priced row. */
  lemma {:induction false} PricedRowIffCounted(g: seq<ScoredMovement>, prices: PriceTable)
    ensures CountPresent(Values(g, prices)) > 0 <==> exists x :: x in g && Value(x, prices).Some?
    decreases |g|
  {
    if |g| > 0 {
      PricedRowIffCounted(g[1..], prices);
      assert Values(g, prices)[1..] == Values(g[1..], prices);
      assert g == [g[0]] + g[1..];
    }
  }

  /** The (material, unit) pair of every row, in input order. */
  function Pairs(rs: seq<ScoredMovement>): (ps: seq<(string, string)>)
    ensures |ps| == |rs|
    ensures forall i :: 0 <= i < |rs| ==> ps[i] == (rs[i].material, rs[i].unit)
  {
    if |rs| == 0 then [] else [(rs[0].material, rs[0].unit)] + Pairs(rs[1..])
  }

  /** The script's guard `len(subset) > 0` holds exactly for the pairs that occur in `rs`. */
  lemma {:induction false} GroupNonEmptyIff(rs: seq<ScoredMovement>, m: string, u: string)
    ensures |GroupOf(rs, m, u)| > 0 <==> (m, u) in Pairs(rs)
  {
    var g := GroupOf(rs, m, u);
    if (m, u) in Pairs(rs) {
      var i :| 0 <= i < |rs| && Pairs(rs)[i] == (m, u);
      assert rs[i] in rs && InGroup(m, u)(rs[i]);
      assert rs[i] in g;
    }
    if |g| > 0 {
      assert g[0] in g;
      var i :| 0 <= i < |rs| && rs[i] == g[0];
      assert Pairs(rs)[i] == (m, u);
    }
  }

  /** Inner loop over units for one material: the keys of its non-empty groups, in the
      order of `us`. */
  function RowKeys(rs: seq<ScoredMovement>, m: string, us: seq<string>): (ks: seq<(string, string)>)
    ensures forall k :: k in ks ==> k.0 == m && k.1 in us && |GroupOf(rs, k.0, k.1)| > 0
    ensures forall u :: u in us && |GroupOf(rs, m, u)| > 0 ==> (m, u) in ks
  {
    if |us| == 0 then []
    else
      var head := if |GroupOf(rs, m, us[0])| > 0 then [(m, us[0])] else [];
      assert us == [us[0]] + us[1..];
      head + RowKeys(rs, m, us[1..])
  }

  /** Distinct units give distinct keys within one material's row. */
  lemma {:induction false} RowKeysDistinct(rs: seq<ScoredMovement>, m: string, us: seq<string>)
    requires NoDuplicates(us)
    ensures NoDuplicates(RowKeys(rs, m, us))
    decreases |us|
  {
    if |us| > 0 {
      var head := if |GroupOf(rs, m, us[0])| > 0 then [(m, us[0])] else [];
      var tail := RowKeys(rs, m, us[1..]);
      assert RowKeys(rs, m, us) == head + tail;
      NoDuplicatesTail(us);
      NoDuplicatesHead(us);
      RowKeysDistinct(rs, m, us[1..]);
      NoDuplicatesAppend(head, tail);
    }
  }

  /** Outer loop over materials. */
  function GroupKeys(rs: seq<ScoredMovement>, ms: seq<string>, us: seq<string>): (ks: seq<(string, string)>)
    ensures forall k :: k in ks ==> k.0 in ms && k.1 in us && |GroupOf(rs, k.0, k.1)| > 0
    ensures forall m, u :: m in ms && u in us && |GroupOf(rs, m, u)| > 0 ==> (m, u) in ks
  {
    if |ms| == 0 then []
    else
      assert ms == [ms[0]] + ms[1..];
      RowKeys(rs, ms[0], us) + GroupKeys(rs, ms[1..], us)
  }

  /** Distinct materials and distinct units give distinct (material, unit) keys. */
  lemma {:induction false} GroupKeysDistinct(rs: seq<ScoredMovement>, ms: seq<string>, us: seq<string>)
    requires NoDuplicates(ms) && NoDuplicates(us)
    ensures NoDuplicates(GroupKeys(rs, ms, us))
    decreases |ms|
  {
    if |ms| > 0 {
      var row := RowKeys(rs, ms[0], us);
      var rest := GroupKeys(rs, ms[1..], us);
      assert GroupKeys(rs, ms, us) == row + rest;
      NoDuplicatesTail(ms);
      NoDuplicatesHead(ms);
      RowKeysDistinct(rs, ms[0], us);
      GroupKeysDistinct(rs, ms[1..], us);
      NoDuplicatesAppend(row, rest);
    }
  }

  /** The material column, repeats kept; `MissingKeys` de-duplicates it as `unique()` does. */
  function Materials(rs: seq<ScoredMovement>): (ms: seq<string>)
    ensures forall r :: r in rs ==> r.material in ms
  {
    if |rs| == 0 then [] else [rs[0].material] + Materials(rs[1..])
  }

  /** The unit column, repeats kept; `MissingKeys` de-duplicates it as `unique()` does. */
  function Units(rs: seq<ScoredMovement>): (us: seq<string>)
    ensures forall r :: r in rs ==> r.unit in us
  {
    if |rs| == 0 then [] else [rs[0].unit] + Units(rs[1..])
  }

  /** The keys of the `impacto_ausente` dictionary: every (material, unit) pair that occurs
      in `rs` exactly once, and no other pair. */
  function MissingKeys(rs: seq<ScoredMovement>): (ks: seq<(string, string)>)
    ensures NoDuplicates(ks)
    ensures forall k :: k in ks <==> k in Pairs(rs)
  {
    // `df_metrics['material'].unique()` and `df_metrics['unidade'].unique()`
    var ms := Distinct(Materials(rs));
    var us := Distinct(Units(rs));
    GroupKeysDistinct(rs, ms, us);
    var ks := GroupKeys(rs, ms, us);
    forall k | k in ks || k in Pairs(rs) ensures k in ks <==> k in Pairs(rs) {
      GroupNonEmptyIff(rs, k.0, k.1);
      if k in Pairs(rs) {
        var i :| 0 <= i < |rs| && Pairs(rs)[i] == k;
        assert rs[i] in rs;
      }
    }
    ks
  }

  /** The dictionary value stored under key `k`. */
  function KeyEstimate(rs: seq<ScoredMovement>, k: (string, string), prices: PriceTable): Option<real> {
    GroupMissingImpact(GroupOf(rs, k.0, k.1), prices)
  }

  /** `impacto_ausente.values()`, in key order. */
  function Estimates(rs: seq<ScoredMovement>, ks: seq<(string, string)>, prices: PriceTable): (c: seq<Option<real>>)
    ensures |c| == |ks|
  {
    if |ks| == 0 then [] else [KeyEstimate(rs, ks[0], prices)] + Estimates(rs, ks[1..], prices)
  }

  /** Value `i` of the dictionary belongs to key `i`. */
  lemma {:induction false} EstimatesAt(rs: seq<ScoredMovement>, ks: seq<(string, string)>, prices: PriceTable)
    ensures forall i :: 0 <= i < |ks| ==> Estimates(rs, ks, prices)[i] == KeyEstimate(rs, ks[i], prices)
    decreases |ks|
  {
    if |ks| > 0 {
      EstimatesAt(rs, ks[1..], prices);
    }
  }

  /** `sum(impacto_ausente.values())`, with Python's `sum`: missing (NaN) as soon as one
      group's estimate is missing. */
  function MissingTotal(rs: seq<ScoredMovement>, prices: PriceTable): Option<real> {
    SumStrict(Estimates(rs, MissingKeys(rs), prices))
  }

  /** Every value of the dictionary is present exactly when every key's estimate is. */
  lemma {:induction false} EstimatesPresent(rs: seq<ScoredMovement>, ks: seq<(string, string)>, prices: PriceTable)
    ensures SumStrict(Estimates(rs, ks, prices)).Some? <==> forall k :: k in ks ==> KeyEstimate(rs, k, prices).Some?
  {
    var c := Estimates(rs, ks, prices);
    EstimatesAt(rs, ks, prices);
    if forall i :: 0 <= i < |c| ==> c[i].Some? {
      forall k | k in ks ensures KeyEstimate(rs, k, prices).Some? {
        var i :| 0 <= i < |ks| && ks[i] == k;
        assert c[i].Some?;
      }
    }
  }

  /** Under non-negative prices a group's estimate, when present, is never negative. */
  lemma {:induction false} GroupMissingImpactNonNegative(g: seq<ScoredMovement>, prices: PriceTable)
    requires NonNegativePrices(prices)
    ensures GroupMissingImpact(g, prices).Some? ==> GroupMissingImpact(g, prices).value >= 0.0
  {
    MeanNonNegative(Values(g, prices));
  }

  /** Under non-negative prices the missing-record total, when present, is never negative. */
  lemma {:induction false} MissingTotalNonNegative(rs: seq<ScoredMovement>, prices: PriceTable)
    requires NonNegativePrices(prices)
    ensures MissingTotal(rs, prices).Some? ==> MissingTotal(rs, prices).value >= 0.0
  {
    var ks := MissingKeys(rs);
    var c := Estimates(rs, ks, prices);
    EstimatesAt(rs, ks, prices);
    forall i | 0 <= i < |c| && c[i].Some? ensures c[i].value >= 0.0 {
      GroupMissingImpactNonNegative(GroupOf(rs, ks[i].0, ks[i].1), prices);
    }
    assert AllNonNegative(c);
  }

  /** Every row's (material, unit) pair is a key of the dictionary. */
  lemma {:induction false} RowPairIsKey(rs: seq<ScoredMovement>, r: ScoredMovement)
    requires r in rs
    ensures (r.material, r.unit) in MissingKeys(rs)
  {
    var i :| 0 <= i < |rs| && rs[i] == r;
    assert Pairs(rs)[i] == (r.material, r.unit);
  }

  /** One row whose group has no priced value anywhere (all quantities missing, or an
      unpriced material) makes the whole missing-record total missing. */
  lemma {:induction false} UnpricedGroupPoisonsTotal(rs: seq<ScoredMovement>, r: ScoredMovement, prices: PriceTable)
    requires r in rs
    requires forall x :: x in GroupOf(rs, r.material, r.unit) ==> Value(x, prices).None?
    ensures MissingTotal(rs, prices).None?
  {
    RowPairIsKey(rs, r);
    GroupMissingImpactPresence(GroupOf(rs, r.material, r.unit), prices);
    EstimatesPresent(rs, MissingKeys(rs), prices);
  }

  /** When every row's group has a priced row, every group gets an estimate and the total
      is present. */
  lemma {:induction false} PricedGroupsGiveTotal(rs: seq<ScoredMovement>, prices: PriceTable)
    requires forall r :: r in rs ==> exists x :: x in GroupOf(rs, r.material, r.unit) && Value(x, prices).Some?
    ensures MissingTotal(rs, prices).Some?
  {
    var ks := MissingKeys(rs);
    forall k | k in ks ensures KeyEstimate(rs, k, prices).Some? {
      var i :| 0 <= i < |rs| && Pairs(rs)[i] == k;
      assert rs[i] in rs;
      GroupMissingImpactPresence(GroupOf(rs, k.0, k.1), prices);
    }
    EstimatesPresent(rs, ks, prices);
  }

  /** The missing-record total is present exactly when every row's (material, unit) group
      has at least one row with a value. */
  lemma {:induction false} MissingTotalPresence(rs: seq<ScoredMovement>, prices: PriceTable)
    ensures MissingTotal(rs, prices).Some?
        <==> forall r :: r in rs ==> exists x :: x in GroupOf(rs, r.material, r.unit) && Value(x, prices).Some?
  {
    if forall r :: r in rs ==> exists x :: x in GroupOf(rs, r.material, r.unit) && Value(x, prices).Some? {
      PricedGroupsGiveTotal(rs, prices);
    } else {
      var r :| r in rs && !exists x :: x in GroupOf(rs, r.material, r.unit) && Value(x, prices).Some?;
      UnpricedGroupPoisonsTotal(rs, r, prices);
    }
  }
}
