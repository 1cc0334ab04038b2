/** Money attached to scored movements: the price table, each row's moved value,
    the anomaly mask and the per-row impact estimates of the financial simulation. */
module Valuation {
  import opened Optional
  import opened Seqs
  import opened Sums
  import opened Movements

  /** Material name to unit price (R$). */
  type PriceTable = map<string, real>

  /** The fixed price table of the simulation. */
  const DefaultPrices: PriceTable := map[
    "Seringa" := 2.5,
    "Medicamentos" := 45.0,
    "Tubo" := 15.0,
    "Esparadrapo" := 8.0,
    "Gaze" := 3.5]

  /** Fraction of a flagged row's value counted as a possible duplicate. */
  const DuplicateRate: real := 0.05

  predicate NonNegativePrices(prices: PriceTable) {
    forall m :: m in prices ==> prices[m] >= 0.0
  }

  function Abs(x: real): (a: real)
    ensures a >= 0.0
    ensures a == x || a == -x
  {
    if x < 0.0 then -x else x
  }

  /** `valor_total`: magnitude of the quantity times the material's price; missing when
      the quantity is missing or the material has no price. */
  function Value(r: ScoredMovement, prices: PriceTable): (v: Option<real>)
    ensures v.Some? <==> r.quantity.Some? && r.material in prices
    ensures v.Some? && prices[r.material] >= 0.0 ==> v.value >= 0.0
  {
    match r.quantity
    case None => None
    case Some(q) => if r.material in prices then Some(Abs(q) * prices[r.material]) else None
  }

  /** The anomaly mask `severidade.isin(['Alerta', 'Crítico'])`. */
  function IsAnomaly(r: ScoredMovement): (b: bool)
    ensures r.severity == Normal || r.severity == Atencao || r.severity == Unlabelled ==> !b
  {
    r.severity.Alerta? || r.severity.Critico?
  }

  /** Incorrect-record impact of one row, `valor_total * (z - 1) / z`: the recorded value
      minus the value the Z-score suggests was expected (`valor_total / z`). */
  function IncorrectImpact(r: ScoredMovement, prices: PriceTable): (i: Option<real>)
    requires r.zScore != 0.0
    ensures i.Some? <==> Value(r, prices).Some?
  {
    match Value(r, prices)
    case None => None
    case Some(v) => Some(v * (r.zScore - 1.0) / r.zScore)
  }

  /** A present incorrect-record impact is the recorded value minus the expected value
      `valor_total / z`; for a non-negative value it is non-negative unless 0 < z < 1, and
      it never exceeds the value when z >= 1. */
  lemma IncorrectImpactBounds(r: ScoredMovement, prices: PriceTable)
    requires r.zScore != 0.0
    ensures IncorrectImpact(r, prices).Some? ==>
      var v, z, i := Value(r, prices).value, r.zScore, IncorrectImpact(r, prices).value;
      && i == v - v / z
      && (v >= 0.0 && (z >= 1.0 || z < 0.0) ==> i >= 0.0)
      && (v >= 0.0 && z >= 1.0 ==> i <= v)
  {
    if Value(r, prices).Some? {
      var v, z := Value(r, prices).value, r.zScore;
      assert v * (z - 1.0) == v * z - v;
      assert (v * z - v) / z == v * z / z - v / z;
      assert v * z / z == v;
      FactorBounds(v, z);
    }
  }

  /** The scaling factor (z - 1) / z keeps a non-negative value non-negative unless 0 < z < 1,
      and never enlarges it when z >= 1. */
  lemma FactorBounds(v: real, z: real)
    requires z != 0.0
    ensures v >= 0.0 && (z >= 1.0 || z < 0.0) ==> v * (z - 1.0) / z >= 0.0
    ensures v >= 0.0 && z >= 1.0 ==> v * (z - 1.0) / z <= v
  {
    if v < 0.0 {
    } else if z >= 1.0 {
      assert (z - 1.0) / z >= 0.0;
      assert (z - 1.0) / z <= 1.0;
      assert v * (z - 1.0) / z == v * ((z - 1.0) / z);
    } else if z < 0.0 {
      assert (z - 1.0) / z > 0.0;
      assert v * (z - 1.0) / z == v * ((z - 1.0) / z);
    }
  }

  /** Duplicate-record impact of one row: 5% of its value. */
  function DuplicateImpact(r: ScoredMovement, prices: PriceTable): (i: Option<real>)
    ensures i.Some? <==> Value(r, prices).Some?
    ensures i.Some? && Value(r, prices).value >= 0.0 ==> 0.0 <= i.value <= Value(r, prices).value
  {
    match Value(r, prices)
    case None => None
    case Some(v) => Some(v * DuplicateRate)
  }

  /** The `valor_total` column. */
  function Values(rs: seq<ScoredMovement>, prices: PriceTable): (c: seq<Option<real>>)
    ensures |c| == |rs|
    ensures forall i :: 0 <= i < |rs| ==> c[i] == Value(rs[i], prices)
    ensures NonNegativePrices(prices) ==> AllNonNegative(c)
  {
    if |rs| == 0 then [] else [Value(rs[0], prices)] + Values(rs[1..], prices)
  }

  /** Every row carries a usable (non-zero) Z-score. */
  predicate AllScored(rs: seq<ScoredMovement>) {
    forall r :: r in rs ==> r.zScore != 0.0
  }

  /** Dropping the first row keeps every Z-score usable. */
  lemma {:induction false} AllScoredTail(rs: seq<ScoredMovement>)
    requires AllScored(rs) && |rs| > 0
    ensures AllScored(rs[1..])
  {
    forall r | r in rs[1..] ensures r.zScore != 0.0 {
      MemberSplit(rs, r);
    }
  }

  /** The `impacto_registro_incorreto` column. */
  function IncorrectColumn(rs: seq<ScoredMovement>, prices: PriceTable): (c: seq<Option<real>>)
    requires AllScored(rs)
    ensures |c| == |rs|
    ensures forall i :: 0 <= i < |rs| ==> c[i] == IncorrectImpact(rs[i], prices)
  {
    if |rs| == 0 then [] else [IncorrectImpact(rs[0], prices)] + IncorrectColumn(rs[1..], prices)
  }

  /** With non-negative prices and no Z-score strictly between 0 and 1, every present
      incorrect-record impact is non-negative. */
  lemma {:induction false} IncorrectColumnNonNegative(rs: seq<ScoredMovement>, prices: PriceTable)
    requires AllScored(rs) && NonNegativePrices(prices)
    requires forall r :: r in rs ==> r.zScore >= 1.0 || r.zScore < 0.0
    ensures AllNonNegative(IncorrectColumn(rs, prices))
    decreases |rs|
  {
    if |rs| > 0 {
      AllScoredTail(rs);
      forall r | r in rs[1..] ensures r.zScore >= 1.0 || r.zScore < 0.0 {
        MemberSplit(rs, r);
      }
      IncorrectColumnNonNegative(rs[1..], prices);
      IncorrectImpactBounds(rs[0], prices);
      var c := IncorrectColumn(rs, prices);
      assert c[1..] == IncorrectColumn(rs[1..], prices);
      forall i | 0 <= i < |c| && c[i].Some? ensures c[i].value >= 0.0 {
        if i > 0 {
          assert c[i] == c[1..][i - 1];
        }
      }
    }
  }

  /** The `impacto_duplicacao` column. */
  function DuplicateColumn(rs: seq<ScoredMovement>, prices: PriceTable): (c: seq<Option<real>>)
    ensures |c| == |rs|
    ensures forall i :: 0 <= i < |rs| ==> c[i] == DuplicateImpact(rs[i], prices)
  {
    if |rs| == 0 then [] else [DuplicateImpact(rs[0], prices)] + DuplicateColumn(rs[1..], prices)
  }

  /** Summing the duplicate column is the same as taking 5% of the summed values. */
  lemma {:induction false} DuplicateSumIsRateOfValue(rs: seq<ScoredMovement>, prices: PriceTable)
    ensures SumPresent(DuplicateColumn(rs, prices)) == DuplicateRate * SumPresent(Values(rs, prices))
    decreases |rs|
  {
    if |rs| > 0 {
      DuplicateSumIsRateOfValue(rs[1..], prices);
      assert DuplicateColumn(rs, prices)[1..] == DuplicateColumn(rs[1..], prices);
      assert Values(rs, prices)[1..] == Values(rs[1..], prices);
    }
  }

  /** The worked example: 100 syringes at R$ 2.50 with Z-score 4 give R$ 187.50. */
  lemma SyringeExample()
    ensures IncorrectImpact(ScoredMovement("Seringa", "Moema", Some(100.0), 4.0, Alerta), DefaultPrices)
            == Some(187.5)
  {
  }

  /** A negative Z-score makes the factor (z - 1) / z exceed 1: with z = -1 the same 100
      syringes worth R$ 250.00 carry R$ 500.00 of incorrect-record impact. */
  lemma NegativeScoreExceedsValue()
    ensures IncorrectImpact(ScoredMovement("Seringa", "Moema", Some(100.0), -1.0, Critico), DefaultPrices)
            == Some(500.0)
    ensures Value(ScoredMovement("Seringa", "Moema", Some(100.0), -1.0, Critico), DefaultPrices)
            == Some(250.0)
  {
  }
}
