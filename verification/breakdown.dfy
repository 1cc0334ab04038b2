/** The `groupby(...)['impacto_registro_incorreto'].sum()` breakdowns of the flagged rows,
    by material and by hospital unit, and the law that each breakdown partitions the
    incorrect-record total. */
module Breakdown {
  import opened Optional
  import opened Seqs
  import opened Sums
  import opened Movements
  import opened Valuation

  /** The column a breakdown groups by. */
  datatype Dimension = ByMaterial | ByUnit

  function KeyOf(r: ScoredMovement, d: Dimension): string {
    match d
    case ByMaterial => r.material
    case ByUnit => r.unit
  }

  /** Row mask selecting one group of a breakdown. */
  function HasKey(d: Dimension, k: string): ScoredMovement -> bool {
    r => KeyOf(r, d) == k
  }

  /** The grouping column. */
  function KeysOf(rs: seq<ScoredMovement>, d: Dimension): (ks: seq<string>)
    ensures |ks| == |rs|
    ensures forall i :: 0 <= i < |rs| ==> ks[i] == KeyOf(rs[i], d)
  {
    if |rs| == 0 then [] else [KeyOf(rs[0], d)] + KeysOf(rs[1..], d)
  }

  /** Sum of the incorrect-record column, skipping missing cells. */
  function IncorrectSum(rs: seq<ScoredMovement>, prices: PriceTable): real
    requires AllScored(rs)
  {
    SumPresent(IncorrectColumn(rs, prices))
  }

  /** One row of a breakdown table. */
  datatype Bucket = Bucket(key: string, amount: real)

  function BucketKeys(bs: seq<Bucket>): (ks: seq<string>)
    ensures |ks| == |bs|
    ensures forall i :: 0 <= i < |bs| ==> ks[i] == bs[i].key
  {
    if |bs| == 0 then [] else [bs[0].key] + BucketKeys(bs[1..])
  }

  /** Sum of a breakdown table's amounts. */
  function BucketTotal(bs: seq<Bucket>): real {
    if |bs| == 0 then 0.0 else bs[0].amount + BucketTotal(bs[1..])
  }

  /** Incorrect-record impact of the rows of one group. */
  function GroupIncorrect(rs: seq<ScoredMovement>, d: Dimension, k: string, prices: PriceTable): real
    requires AllScored(rs)
  {
    var g := Filter(rs, HasKey(d, k));
    assert forall r :: r in g ==> r in rs;
    IncorrectSum(g, prices)
  }

  /** One bucket per key, in the order of `ks`. */
  function BucketsFor(ks: seq<string>, rs: seq<ScoredMovement>, d: Dimension, prices: PriceTable): (bs: seq<Bucket>)
    requires AllScored(rs)
    ensures |bs| == |ks|
    ensures forall i :: 0 <= i < |ks| ==> bs[i] == Bucket(ks[i], GroupIncorrect(rs, d, ks[i], prices))
  {
    if |ks| == 0 then [] else [Bucket(ks[0], GroupIncorrect(rs, d, ks[0], prices))] + BucketsFor(ks[1..], rs, d, prices)
  }

  /** `bs` is a group-by table of the incorrect-record impact of `rs` by `d`, in some key
      order: one bucket per key that occurs, each holding the impact of exactly the rows with
      that key. */
  predicate IsBreakdownOf(bs: seq<Bucket>, rs: seq<ScoredMovement>, d: Dimension, prices: PriceTable)
    requires AllScored(rs)
  {
    && NoDuplicates(BucketKeys(bs))
    && (forall r :: r in rs ==> KeyOf(r, d) in BucketKeys(bs))
    && (forall k :: k in BucketKeys(bs) ==> k in KeysOf(rs, d))
    && (forall i :: 0 <= i < |bs| ==> bs[i].amount == GroupIncorrect(rs, d, bs[i].key, prices))
  }

  /** The breakdown of the incorrect-record impact of `rs` by `d`, the buckets together
      adding up to the impact of all rows. */
  function IncorrectBreakdown(rs: seq<ScoredMovement>, d: Dimension, prices: PriceTable): (bs: seq<Bucket>)
    requires AllScored(rs)
    ensures IsBreakdownOf(bs, rs, d, prices)
    ensures BucketTotal(bs) == IncorrectSum(rs, prices)
  {
    var keys := KeysOf(rs, d);
    var ks := Distinct(keys);
    var bs := BucketsFor(ks, rs, d, prices);
    assert BucketKeys(bs) == ks;
    assert forall r :: r in rs ==> KeyOf(r, d) in keys by {
      forall r | r in rs ensures KeyOf(r, d) in keys {
        var i :| 0 <= i < |rs| && rs[i] == r;
        assert keys[i] == KeyOf(r, d);
      }
    }
    BucketsPartition(ks, rs, d, prices);
    bs
  }

  /** With distinct keys covering every row's key, the buckets add up to the whole column. */
  lemma {:induction false} BucketsPartition(ks: seq<string>, rs: seq<ScoredMovement>, d: Dimension, prices: PriceTable)
    requires AllScored(rs)
    requires NoDuplicates(ks)
    requires forall r :: r in rs ==> KeyOf(r, d) in ks
    ensures BucketTotal(BucketsFor(ks, rs, d, prices)) == IncorrectSum(rs, prices)
    decreases |rs|
  {
    if |rs| == 0 {
      EmptyBuckets(ks, rs, d, prices);
    } else {
      assert forall r :: r in rs[1..] ==> r in rs;
      assert KeyOf(rs[0], d) in ks;
      BucketsPartition(ks, rs[1..], d, prices);
      BucketsSplitHead(ks, rs, d, prices);
      IncorrectSumHead(rs, prices);
    }
  }

  /** Peeling the first row off the incorrect-record column. */
  lemma {:induction false} IncorrectSumHead(rs: seq<ScoredMovement>, prices: PriceTable)
    requires AllScored(rs) && |rs| > 0
    ensures AllScored(rs[1..])
    ensures IncorrectSum(rs, prices) == IncorrectImpact(rs[0], prices).GetOr(0.0) + IncorrectSum(rs[1..], prices)
  {
    assert forall r :: r in rs[1..] ==> r in rs;
    assert IncorrectColumn(rs, prices)[1..] == IncorrectColumn(rs[1..], prices);
  }

  /** No rows, no impact in any bucket. */
  lemma {:induction false} EmptyBuckets(ks: seq<string>, rs: seq<ScoredMovement>, d: Dimension, prices: PriceTable)
    requires |rs| == 0
    ensures BucketTotal(BucketsFor(ks, rs, d, prices)) == 0.0
    decreases |ks|
  {
    if |ks| > 0 {
      EmptyBuckets(ks[1..], rs, d, prices);
      assert BucketsFor(ks, rs, d, prices)[1..] == BucketsFor(ks[1..], rs, d, prices);
    }
  }

  /** The first row adds its impact to the one bucket carrying its key and to no other. */
  lemma {:induction false} BucketsSplitHead(ks: seq<string>, rs: seq<ScoredMovement>, d: Dimension, prices: PriceTable)
    requires AllScored(rs) && |rs| > 0
    requires NoDuplicates(ks)
    ensures AllScored(rs[1..])
    ensures BucketTotal(BucketsFor(ks, rs, d, prices))
         == BucketTotal(BucketsFor(ks, rs[1..], d, prices))
            + (if KeyOf(rs[0], d) in ks then IncorrectImpact(rs[0], prices).GetOr(0.0) else 0.0)
    decreases |ks|
  {
    AllScoredTail(rs);
    if |ks| > 0 {
      NoDuplicatesTail(ks);
      BucketsSplitHead(ks[1..], rs, d, prices);
      GroupSplitHead(rs, d, ks[0], prices);
      assert BucketsFor(ks, rs, d, prices)[1..] == BucketsFor(ks[1..], rs, d, prices);
      assert BucketsFor(ks, rs[1..], d, prices)[1..] == BucketsFor(ks[1..], rs[1..], d, prices);
      MemberSplit(ks, KeyOf(rs[0], d));
      if KeyOf(rs[0], d) == ks[0] {
        NoDuplicatesHead(ks);
      }
    }
  }

  /** A group's impact is the first row's impact (when it belongs) plus the rest's. */
  lemma {:induction false} GroupSplitHead(rs: seq<ScoredMovement>, d: Dimension, k: string, prices: PriceTable)
    requires AllScored(rs) && |rs| > 0
    ensures AllScored(rs[1..])
    ensures GroupIncorrect(rs, d, k, prices)
         == GroupIncorrect(rs[1..], d, k, prices)
            + (if KeyOf(rs[0], d) == k then IncorrectImpact(rs[0], prices).GetOr(0.0) else 0.0)
  {
    assert forall r :: r in rs[1..] ==> r in rs;
    var g := Filter(rs, HasKey(d, k));
    var g' := Filter(rs[1..], HasKey(d, k));
    assert forall r :: r in g ==> r in rs;
    assert forall r :: r in g' ==> r in rs[1..];
    if KeyOf(rs[0], d) == k {
      assert g == [rs[0]] + g';
      assert g[0] == rs[0] && g[1..] == g';
      assert IncorrectColumn(g, prices)[1..] == IncorrectColumn(g', prices);
    } else {
      assert g == g';
    }
  }
}
