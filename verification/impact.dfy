/** The financial simulation end to end: the anomaly filter, the three impact totals,
    their sum, the breakdowns of the incorrect-record impact, the share of the moved value
    and the total with the fixed indirect costs added. */
module Simulation {
  import opened Optional
  import opened Seqs
  import opened Sums
  import opened Movements
  import opened Valuation
  import opened Breakdown
  import opened MissingRecords

  /** Indirect costs added on top of the direct impact: R$ 3,500 of correction labour,
      R$ 12,000 of procedure delays and R$ 6,500 of emergency purchases. */
  const IndirectCosts: real := 22000.0

  /** The impact formula divides by the Z-score of every flagged row. */
  predicate ScoresUsable(rs: seq<ScoredMovement>) {
    forall r :: r in rs && IsAnomaly(r) ==> r.zScore != 0.0
  }

  /** `anomalias`: the rows labelled "Alerta" or "Crítico", in input order. */
  function Anomalies(rs: seq<ScoredMovement>): (a: seq<ScoredMovement>)
    ensures IsSubsequence(a, rs)
    ensures forall r :: r in a <==> r in rs && IsAnomaly(r)
    ensures forall r :: multiset(a)[r] == if IsAnomaly(r) then multiset(rs)[r] else 0
    ensures ScoresUsable(rs) ==> AllScored(a)
  {
    FilterMultiplicity(rs, IsAnomaly);
    Filter(rs, IsAnomaly)
  }

  /** `impacto_total_incorreto`. */
  function IncorrectTotal(rs: seq<ScoredMovement>, prices: PriceTable): real
    requires ScoresUsable(rs)
  {
    IncorrectSum(Anomalies(rs), prices)
  }

  /** `impacto_total_duplicacao`. */
  function DuplicateTotal(rs: seq<ScoredMovement>, prices: PriceTable): real {
    SumPresent(DuplicateColumn(Anomalies(rs), prices))
  }

  /** `valor_total_movimentado`: the value of every row, flagged or not. */
  function MovedValue(rs: seq<ScoredMovement>, prices: PriceTable): real {
    SumPresent(Values(rs, prices))
  }

  /** `(impacto / valor_total_movimentado) * 100`; missing when the impact is missing or the
      moved value is zero (a non-finite float in the script). */
  function Percentage(impact: Option<real>, moved: real): (p: Option<real>)
    ensures p.Some? <==> impact.Some? && moved != 0.0
    ensures p.Some? ==> p.value * moved == impact.value * 100.0
  {
    if impact.None? || moved == 0.0 then None
    else
      var p := impact.value / moved * 100.0;
      assert p * moved == impact.value * 100.0;
      Some(p)
  }

  /** Adds the fixed indirect costs to a (possibly missing) direct impact. */
  function WithIndirect(impact: Option<real>): (t: Option<real>)
    ensures t.Some? <==> impact.Some?
    ensures t.Some? ==> t.value - impact.value == IndirectCosts
  {
    if impact.None? then None else Some(impact.value + IndirectCosts)
  }

  /** Everything the simulation writes to its report file. */
  datatype ImpactReport = ImpactReport(
    incorrect: real,
    missing: Option<real>,
    duplicate: real,
    total: Option<real>,
    byMaterial: seq<Bucket>,
    byUnit: seq<Bucket>,
    moved: real,
    percentage: Option<real>,
    totalWithIndirect: Option<real>,
    percentageWithIndirect: Option<real>)

  /** Runs the simulation over the scored rows. */
  function Simulate(rs: seq<ScoredMovement>, prices: PriceTable): (rep: ImpactReport)
    requires ScoresUsable(rs)
    ensures rep.incorrect == IncorrectTotal(rs, prices)
    ensures rep.duplicate == DuplicateRate * SumPresent(Values(Anomalies(rs), prices))
    ensures rep.missing == MissingTotal(rs, prices)
    ensures rep.total.Some? <==> rep.missing.Some?
    ensures rep.total.Some? ==> rep.total.value == rep.incorrect + rep.missing.value + rep.duplicate
    ensures IsBreakdownOf(rep.byMaterial, Anomalies(rs), ByMaterial, prices)
    ensures IsBreakdownOf(rep.byUnit, Anomalies(rs), ByUnit, prices)
    ensures BucketTotal(rep.byMaterial) == rep.incorrect
    ensures BucketTotal(rep.byUnit) == rep.incorrect
    ensures rep.moved == MovedValue(rs, prices)
    ensures rep.percentage == Percentage(rep.total, rep.moved)
    ensures rep.totalWithIndirect == WithIndirect(rep.total)
    ensures rep.percentageWithIndirect == Percentage(rep.totalWithIndirect, rep.moved)
  {
    var flagged := Anomalies(rs);
    var incorrect := IncorrectTotal(rs, prices);
    var missing := MissingTotal(rs, prices);
    var duplicate := DuplicateTotal(rs, prices);
    DuplicateSumIsRateOfValue(flagged, prices);
    var total := if missing.None? then None else Some(incorrect + missing.value + duplicate);
    var moved := MovedValue(rs, prices);
    var withIndirect := WithIndirect(total);
    ImpactReport(
      incorrect, missing, duplicate, total,
      IncorrectBreakdown(flagged, ByMaterial, prices),
      IncorrectBreakdown(flagged, ByUnit, prices),
      moved,
      Percentage(total, moved),
      withIndirect,
      Percentage(withIndirect, moved))
  }

  /** Inserting a row that is not flagged ("Normal", "Atenção" or unlabelled) anywhere
      leaves the flagged rows, and with them the incorrect-record and duplicate impacts and
      both breakdowns, unchanged. */
  lemma {:induction false} UnflaggedRowAddsNothing(a: seq<ScoredMovement>, r: ScoredMovement, b: seq<ScoredMovement>, prices: PriceTable)
    requires !IsAnomaly(r)
    requires ScoresUsable(a + b)
    ensures ScoresUsable(a + [r] + b)
    ensures Anomalies(a + [r] + b) == Anomalies(a + b)
    ensures IncorrectTotal(a + [r] + b, prices) == IncorrectTotal(a + b, prices)
    ensures DuplicateTotal(a + [r] + b, prices) == DuplicateTotal(a + b, prices)
  {
    FilterAppend(a + [r], b, IsAnomaly);
    FilterAppend(a, [r], IsAnomaly);
    FilterAppend(a, b, IsAnomaly);
    assert Filter([r], IsAnomaly) == [];
    assert Filter(a + [r], IsAnomaly) == Filter(a, IsAnomaly);
  }

  /** With non-negative prices and no flagged Z-score strictly between 0 and 1, no impact
      figure of the report is negative. */
  lemma {:induction false} ImpactNonNegative(rs: seq<ScoredMovement>, prices: PriceTable)
    requires NonNegativePrices(prices)
    requires forall r :: r in rs && IsAnomaly(r) ==> r.zScore >= 1.0 || r.zScore < 0.0
    ensures ScoresUsable(rs)
    ensures Simulate(rs, prices).incorrect >= 0.0
    ensures Simulate(rs, prices).duplicate >= 0.0
    ensures Simulate(rs, prices).missing.Some? ==> Simulate(rs, prices).missing.value >= 0.0
    ensures Simulate(rs, prices).total.Some? ==> Simulate(rs, prices).total.value >= 0.0
  {
    var flagged := Anomalies(rs);
    IncorrectColumnNonNegative(flagged, prices);
    MissingTotalNonNegative(rs, prices);
    DuplicateSumIsRateOfValue(flagged, prices);
  }

  /** Without a flagged row the incorrect-record and duplicate impacts are zero, and so is the
      missing-record impact whenever it is present. */
  lemma {:induction false} NoAnomalyNoImpact(rs: seq<ScoredMovement>, prices: PriceTable)
    requires forall r :: r in rs ==> !IsAnomaly(r)
    ensures ScoresUsable(rs)
    ensures Simulate(rs, prices).incorrect == 0.0
    ensures Simulate(rs, prices).duplicate == 0.0
    ensures Simulate(rs, prices).missing.Some? ==> Simulate(rs, prices).missing.value == 0.0
  {
    var flagged := Anomalies(rs);
    FilterNone(rs, IsAnomaly);
    var ks := MissingKeys(rs);
    var c := Estimates(rs, ks, prices);
    EstimatesAt(rs, ks, prices);
    forall i | 0 <= i < |c| && c[i].Some? ensures c[i].value == 0.0 {
      var g := GroupOf(rs, ks[i].0, ks[i].1);
      NoFlaggedRows(g);
    }
    SumPresentOfZeros(c);
  }

  /** One "Alerta" row: 100 syringes at R$ 2.50 in unit Moema with Z-score 4. */
  const SyringeRow: ScoredMovement := ScoredMovement("Seringa", "Moema", Some(100.0), 4.0, Alerta)

  /** The row's value is R$ 250.00; as the only, flagged, row it gives R$ 187.50 of
      incorrect-record impact and R$ 12.50 of duplicate impact. */
  lemma {:induction false} SyringeRowTotals()
    ensures ScoresUsable([SyringeRow])
    ensures IncorrectTotal([SyringeRow], DefaultPrices) == 187.5
    ensures DuplicateTotal([SyringeRow], DefaultPrices) == 12.5
    ensures MovedValue([SyringeRow], DefaultPrices) == 250.0
  {
    var rs := [SyringeRow];
    assert Value(SyringeRow, DefaultPrices) == Some(250.0);
    assert Values(rs, DefaultPrices) == [Some(250.0)];
    assert Anomalies(rs) == rs;
    assert IncorrectImpact(SyringeRow, DefaultPrices) == Some(187.5);
    assert IncorrectColumn(rs, DefaultPrices) == [Some(187.5)];
    assert SumPresent([Some(187.5)]) == 187.5 by {
      assert [Some(187.5)][1..] == [];
    }
    assert DuplicateColumn(rs, DefaultPrices) == [Some(12.5)];
  }

  /** Its own group has one flagged row and mean value R$ 250.00: a tenth of it, R$ 25.00. */
  lemma {:induction false} SyringeGroupEstimate()
    ensures GroupMissingImpact([SyringeRow], DefaultPrices) == Some(25.0)
  {
    var rs := [SyringeRow];
    assert Values(rs, DefaultPrices) == [Some(250.0)];
    assert CountPresent([Some(250.0)]) == 1 && SumPresent([Some(250.0)]) == 250.0 by {
      assert [Some(250.0)][1..] == [];
    }
    assert FlaggedShare(rs, 250.0) == 25.0 by {
      assert rs[1..] == [];
    }
  }

  /** The dictionary has the single key (Seringa, Moema). */
  lemma {:induction false} SyringeKeys()
    ensures MissingKeys([SyringeRow]) == [("Seringa", "Moema")]
  {
    var rs := [SyringeRow];
    assert GroupOf(rs, "Seringa", "Moema") == rs;
    assert Distinct(Materials(rs)) == ["Seringa"];
    assert Distinct(Units(rs)) == ["Moema"];
    assert RowKeys(rs, "Seringa", ["Moema"]) == [("Seringa", "Moema")];
    assert GroupKeys(rs, ["Seringa"], ["Moema"]) == [("Seringa", "Moema")];
  }

  /** Its one dictionary entry holds that estimate. */
  lemma {:induction false} SyringeEstimates()
    ensures Estimates([SyringeRow], MissingKeys([SyringeRow]), DefaultPrices) == [Some(25.0)]
  {
    var rs := [SyringeRow];
    var k := ("Seringa", "Moema");
    SyringeKeys();
    SyringeGroupEstimate();
    assert GroupOf(rs, "Seringa", "Moema") == rs;
    assert KeyEstimate(rs, k, DefaultPrices) == Some(25.0);
    assert [k][1..] == [];
  }

  /** So the missing-record total is R$ 25.00. */
  lemma {:induction false} SyringeRowMissing()
    ensures MissingTotal([SyringeRow], DefaultPrices) == Some(25.0)
  {
    SyringeEstimates();
    assert [Some(25.0)][1..] == [];
  }

  /** Both breakdowns have a single bucket holding the whole R$ 187.50. */
  lemma {:induction false} SyringeRowBreakdowns()
    ensures IncorrectBreakdown([SyringeRow], ByMaterial, DefaultPrices) == [Bucket("Seringa", 187.5)]
    ensures IncorrectBreakdown([SyringeRow], ByUnit, DefaultPrices) == [Bucket("Moema", 187.5)]
  {
    var rs := [SyringeRow];
    assert IncorrectSum(rs, DefaultPrices) == 187.5 by {
      assert IncorrectColumn(rs, DefaultPrices) == [Some(187.5)];
      assert [Some(187.5)][1..] == [];
    }
    assert Filter(rs, HasKey(ByMaterial, "Seringa")) == rs;
    assert Filter(rs, HasKey(ByUnit, "Moema")) == rs;
    assert Distinct(KeysOf(rs, ByMaterial)) == ["Seringa"];
    assert Distinct(KeysOf(rs, ByUnit)) == ["Moema"];
  }

  /** The whole report for that single row: R$ 225.00 in total, 90% of the moved value,
      R$ 22,225.00 and 8,890% once the indirect costs are added. */
  lemma {:induction false} SingleSyringeReport()
    ensures ScoresUsable([SyringeRow])
    ensures Simulate([SyringeRow], DefaultPrices)
         == ImpactReport(187.5, Some(25.0), 12.5, Some(225.0),
                         [Bucket("Seringa", 187.5)], [Bucket("Moema", 187.5)],
                         250.0, Some(90.0), Some(22225.0), Some(8890.0))
  {
    SyringeRowTotals();
    SyringeRowMissing();
    SyringeRowBreakdowns();
    assert Percentage(Some(225.0), 250.0) == Some(90.0);
    assert Percentage(Some(22225.0), 250.0) == Some(8890.0);
  }
}
