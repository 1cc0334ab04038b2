/** The consistency checks of the exploratory analysis: missing quantities, missing
    owners, and operations whose type contradicts the sign of their quantity. */
module Validation {
  import opened Optional
  import opened Seqs
  import opened Movements

  /** The sign convention of the data: an inflow carries a non-negative quantity, an
      outflow a non-positive one; any other operation type is unconstrained. */
  predicate RespectsSignConvention(kind: string, q: real) {
    (kind == Entrada ==> q >= 0.0) && (kind == Saida ==> q <= 0.0)
  }

  /** The quantity cell is empty. */
  predicate HasNullQuantity(r: Movement) {
    r.quantity.None?
  }

  /** The owner cell is empty. */
  predicate HasNoOwner(r: Movement) {
    r.owner.None?
  }

  /** The row mask `(tipo == 'entrada' & quantidade < 0) | (tipo == 'saida' & quantidade > 0)`;
      a missing quantity compares false with everything. */
  function IsTypeSignInconsistent(r: Movement): (b: bool)
    ensures b <==> r.quantity.Some? && !RespectsSignConvention(r.kind, r.quantity.value)
    ensures r.quantity.None? ==> !b
    ensures r.quantity == Some(0.0) ==> !b
    ensures r.kind != Entrada && r.kind != Saida ==> !b
  {
    match r.quantity
    case None => false
    case Some(q) => (r.kind == Entrada && q < 0.0) || (r.kind == Saida && q > 0.0)
  }

  /** Number of rows whose quantity is missing (`quantidade.isnull().sum()`). */
  function NullQuantityCount(rs: seq<Movement>): (n: nat)
    ensures n <= |rs|
    ensures n == 0 <==> forall i :: 0 <= i < |rs| ==> rs[i].quantity.Some?
  {
    var selected := Filter(rs, HasNullQuantity);
    assert forall i :: 0 <= i < |rs| && rs[i].quantity.None? ==> rs[i] in selected;
    assert |selected| > 0 ==> selected[0] in rs;
    Count(rs, HasNullQuantity)
  }

  /** The null count is additive over concatenation and counts a single row once exactly
      when its quantity is missing, which pins it down as the number of such rows. */
  lemma {:induction false} NullQuantityCountAdds(a: seq<Movement>, b: seq<Movement>, r: Movement)
    ensures NullQuantityCount(a + b) == NullQuantityCount(a) + NullQuantityCount(b)
    ensures NullQuantityCount([r]) == if r.quantity.None? then 1 else 0
  {
    FilterAppend(a, b, HasNullQuantity);
    assert [r][1..] == [];
  }

  /** Rows whose type contradicts their quantity's sign, in input order and unaltered. */
  function TypeSignInconsistencies(rs: seq<Movement>): (out: seq<Movement>)
    ensures IsSubsequence(out, rs)
    ensures forall r :: multiset(out)[r] == if IsTypeSignInconsistent(r) then multiset(rs)[r] else 0
  {
    FilterMultiplicity(rs, IsTypeSignInconsistent);
    Filter(rs, IsTypeSignInconsistent)
  }

  /** Rows without a responsible person, in input order and unaltered. */
  function MissingOwner(rs: seq<Movement>): (out: seq<Movement>)
    ensures IsSubsequence(out, rs)
    ensures forall r :: multiset(out)[r] == if r.owner.None? then multiset(rs)[r] else 0
  {
    FilterMultiplicity(rs, HasNoOwner);
    Filter(rs, HasNoOwner)
  }

  /** The inconsistency section of the exploratory report. */
  datatype ValidationReport = ValidationReport(
    nullQuantityCount: nat,
    missingOwnerCount: nat,
    missingOwner: seq<Movement>,
    inconsistencies: seq<Movement>,
    inconsistencyCount: nat)

  /** Builds the report: counts come from the masks, lists from the filters. */
  function Validate(rs: seq<Movement>): (rep: ValidationReport)
    ensures rep.nullQuantityCount == |Filter(rs, HasNullQuantity)|
    ensures rep.missingOwnerCount == |rep.missingOwner|
    ensures IsSubsequence(rep.missingOwner, rs) && IsSubsequence(rep.inconsistencies, rs)
    ensures forall r :: multiset(rep.missingOwner)[r] == if r.owner.None? then multiset(rs)[r] else 0
    ensures forall r :: multiset(rep.inconsistencies)[r] == if IsTypeSignInconsistent(r) then multiset(rs)[r] else 0
    ensures rep.inconsistencyCount == |rep.inconsistencies|
    ensures forall r :: r in rep.missingOwner <==> r in rs && r.owner.None?
    ensures forall r :: r in rep.inconsistencies <==> r in rs && IsTypeSignInconsistent(r)
    ensures rep.inconsistencyCount <= |rs| && rep.missingOwnerCount <= |rs|
  {
    var inconsistent := TypeSignInconsistencies(rs);
    var ownerless := MissingOwner(rs);
    ValidationReport(
      NullQuantityCount(rs),
      Count(rs, HasNoOwner),
      ownerless,
      inconsistent,
      |inconsistent|)
  }

  /** An inflow of −50 units and an outflow of +50 units are both reported. */
  lemma SignScenarios()
    ensures IsTypeSignInconsistent(Movement("Moema", "Gaze", Entrada, Some(-50.0), Some("Ana")))
    ensures IsTypeSignInconsistent(Movement("Moema", "Gaze", Saida, Some(50.0), Some("Ana")))
    ensures !IsTypeSignInconsistent(Movement("Moema", "Gaze", Saida, Some(-50.0), None))
  {
  }
}
