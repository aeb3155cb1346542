/** The driver of the field solver in londrillo_delzanna.cpp: the state the
  * solver keeps between calls (the existence flags of the local cells, the
  * three transfer stencils and the switch that asks for the stencils to be
  * rebuilt) and the passes that apply a per-cell update to every local cell
  * in turn. A pass works in place: each step reads the cells as the earlier
  * steps of the same pass left them. Each pass is specified by a fold over
  * the list of local cells. */
module FieldSolver {

  import opened Bits
  import opened NeighbourTopology
  import opened CellState
  import opened TransferStencils
  import P = FieldPropagation
  import E = EdgeElectricField
  import R = Reconstruction

  // ---------------------------------------------------------------------
  // Collaborators the model takes as parameters

  /** fieldSolverBoundaryCondBx/By/Bz: the B_a a cell whose PROPAGATE_Ba gate
    * fails takes from the boundary conditions, given the cells, the cell and
    * its existence flags (the source also passes their complement). */
  type BoundaryCondB = (Axis, CellMap, CellID, Word) -> real

  /** calculateDerivatives of one cell, given the cells and its flags. */
  type DerivativesOf = (CellMap, CellID, Word) -> Derivs

  // ---------------------------------------------------------------------
  // What a pass may change

  /** r holds the cells of m with the same derivatives and the same
    * parameters outside slots lo..hi-1. */
  predicate Within(m: CellMap, r: CellMap, lo: nat, hi: nat)
  {
    && r.Keys == m.Keys
    && (forall id :: id in m ==> r[id].der == m[id].der)
    && (forall id, s :: id in m && 0 <= s < SIZE_CELLPARAMS && !(lo <= s < hi) ==> r[id].cp[s] == m[id].cp[s])
  }

  lemma WithinTrans(a: CellMap, b: CellMap, c: CellMap, lo: nat, hi: nat)
    requires Within(a, b, lo, hi) && Within(b, c, lo, hi)
    ensures Within(a, c, lo, hi)
  {
  }

  /** Each listed cell is stored, its 3x3x3 neighbourhood is known and its
    * sizes are nonzero. */
  predicate Ready(m: CellMap, g: NeighbourQuery, s: seq<CellID>)
  {
    forall q :: 0 <= q < |s| ==> R.NeighbourhoodKnown(m, g, s[q]) && P.Sized(m[s[q]])
  }

  /** A pass that keeps the keys and the sizes keeps the cells ready. */
  lemma ReadyKept(m: CellMap, r: CellMap, g: NeighbourQuery, s: seq<CellID>, lo: nat, hi: nat)
    requires Ready(m, g, s) && Within(m, r, lo, hi) && (hi <= DX || DZ < lo)
    ensures Ready(r, g, s)
  {
    forall q | 0 <= q < |s|
      ensures R.NeighbourhoodKnown(r, g, s[q]) && P.Sized(r[s[q]])
    {
      assert m[s[q]].cp[DX] == r[s[q]].cp[DX];
      assert m[s[q]].cp[DY] == r[s[q]].cp[DY];
      assert m[s[q]].cp[DZ] == r[s[q]].cp[DZ];
    }
  }

  // ---------------------------------------------------------------------
  // How the folds over the local cells are written
  //
  // Each loop of the driver is specified by three functions over the list s
  // of local cells: XFirst(.., s, n), the cells after the loop has handled
  // s[0] to s[n-1]; XAt(.., s, k), step k applied to XFirst(.., s, k); and
  // XThrough(.., s, k), the cells after step k, which is XAt(.., s, k). The
  // XUnfold, XAtIs and XNext lemmas give the loop the step it takes.

  // ---------------------------------------------------------------------
  // propagateMagneticFieldSimple, first loop

  /** The cells at +x, +y and +z; a missing one reads as zeros and is then
    * never used, since the gates that need it fail. */
  function AboveOf(m: CellMap, g: NeighbourQuery, c: CellID): P.Above
    requires R.NeighbourhoodKnown(m, g, c)
  {
    P.Above(ReadOrZero(m, Nbr(g, c, 1, 0, 0)), ReadOrZero(m, Nbr(g, c, 0, 1, 0)), ReadOrZero(m, Nbr(g, c, 0, 0, 1)))
  }

  /** The cells with the data of c replaced by x. */
  function Put(m: CellMap, c: CellID, x: CellData): (r: CellMap)
    requires c in m
    ensures r.Keys == m.Keys && r[c] == x
    ensures forall id :: id in m && id != c ==> r[id] == m[id]
  {
    m[c := x]
  }

  lemma PutWithin(m: CellMap, c: CellID, x: CellData, lo: nat, hi: nat)
    requires c in m && x.der == m[c].der
    requires forall t :: 0 <= t < SIZE_CELLPARAMS && !(lo <= t < hi) ==> x.cp[t] == m[c].cp[t]
    ensures Within(m, Put(m, c, x), lo, hi)
  {
  }

  /** The cells after propagateMagneticField has run on s[0] to s[n-1], in
    * order, each step reading the cells as the earlier steps left them. */
  function PropagatedFirst(m: CellMap, g: NeighbourQuery, flags: map<CellID, Word>, dt: real, s: seq<CellID>, n: nat): (r: CellMap)
    requires n <= |s| && Ready(m, g, s)
    ensures Within(m, r, BX, BZ + 1)
    decreases n, 0
  {
    if n == 0 then m else PropagatedThrough(m, g, flags, dt, s, n - 1)
  }

  function PropagatedThrough(m: CellMap, g: NeighbourQuery, flags: map<CellID, Word>, dt: real, s: seq<CellID>, k: nat): (r: CellMap)
    requires k < |s| && Ready(m, g, s)
    ensures Within(m, r, BX, BZ + 1)
    decreases k, 2
  {
    PropagatedAt(m, g, flags, dt, s, k)
  }

  /** Step k: s[k] takes the update computed from the cells after the first
    * k steps. */
  function PropagatedAt(m: CellMap, g: NeighbourQuery, flags: map<CellID, Word>, dt: real, s: seq<CellID>, k: nat): (r: CellMap)
    requires k < |s| && Ready(m, g, s)
    ensures Within(m, r, BX, BZ + 1)
    decreases k, 1
  {
    var f := PropagatedFirst(m, g, flags, dt, s, k);
    ReadyKept(m, f, g, s, BX, BZ + 1);
    var c := s[k];
    var x := P.PropagatedCell(f[c], AboveOf(f, g, c), R.FlagOf(flags, c), dt);
    PutWithin(f, c, x, BX, BZ + 1);
    WithinTrans(m, f, Put(f, c, x), BX, BZ + 1);
    Put(f, c, x)
  }

  lemma PropagatedUnfold(m: CellMap, g: NeighbourQuery, flags: map<CellID, Word>, dt: real, s: seq<CellID>, k: nat)
    requires k < |s| && Ready(m, g, s)
    ensures PropagatedFirst(m, g, flags, dt, s, k + 1) == PropagatedAt(m, g, flags, dt, s, k)
  {
    assert PropagatedFirst(m, g, flags, dt, s, k + 1) == PropagatedThrough(m, g, flags, dt, s, k);
  }

  /** The update of a cell reads only the E of the cells above it. */
  lemma PropagatedCellReadsE(x: CellData, n1: P.Above, n2: P.Above, flag: Word, dt: real)
    requires P.Sized(x)
    requires forall a: Axis, b: Axis :: P.Up(n1, b).cp[ESlot(a)] == P.Up(n2, b).cp[ESlot(a)]
    ensures P.PropagatedCell(x, n1, flag, dt) == P.PropagatedCell(x, n2, flag, dt)
  {
    forall c: Axis
      ensures P.GatedB(x, n1, flag, c, dt) == P.GatedB(x, n2, flag, c, dt)
    {
      var a := Next(c);
      var b := Next(a);
      assert P.Up(n1, b).cp[ESlot(a)] == P.Up(n2, b).cp[ESlot(a)];
      assert P.Up(n1, a).cp[ESlot(b)] == P.Up(n2, a).cp[ESlot(b)];
    }
  }

  /** A pass that writes only B leaves the E the update reads as it was. */
  lemma AboveKeepsE(m: CellMap, r: CellMap, g: NeighbourQuery, c: CellID)
    requires R.NeighbourhoodKnown(m, g, c) && Within(m, r, BX, BZ + 1)
    ensures R.NeighbourhoodKnown(r, g, c)
    ensures forall a: Axis, b: Axis :: P.Up(AboveOf(r, g, c), b).cp[ESlot(a)] == P.Up(AboveOf(m, g, c), b).cp[ESlot(a)]
  {
    forall a: Axis, b: Axis
      ensures P.Up(AboveOf(r, g, c), b).cp[ESlot(a)] == P.Up(AboveOf(m, g, c), b).cp[ESlot(a)]
    {
      var id := if b == 0 then Nbr(g, c, 1, 0, 0) else if b == 1 then Nbr(g, c, 0, 1, 0) else Nbr(g, c, 0, 0, 1);
      assert P.Up(AboveOf(r, g, c), b) == ReadOrZero(r, id);
      assert P.Up(AboveOf(m, g, c), b) == ReadOrZero(m, id);
      if id != INVALID_CELLID {
        assert r[id].cp[ESlot(a)] == m[id].cp[ESlot(a)];
      }
    }
  }

  /** Step i leaves every cell but s[i] as it was. */
  lemma PropagatedOther(m: CellMap, g: NeighbourQuery, flags: map<CellID, Word>, dt: real, s: seq<CellID>, i: nat, c: CellID)
    requires i < |s| && Ready(m, g, s) && c in m && s[i] != c
    ensures PropagatedFirst(m, g, flags, dt, s, i + 1)[c] == PropagatedFirst(m, g, flags, dt, s, i)[c]
  {
    PropagatedNext(m, g, flags, dt, s, i, PropagatedFirst(m, g, flags, dt, s, i));
  }

  /** A cell steps j to n-1 do not name keeps the data it had after step
    * j-1. */
  lemma PropagatedKept(m: CellMap, g: NeighbourQuery, flags: map<CellID, Word>, dt: real, s: seq<CellID>, j: nat, n: nat, c: CellID)
    requires j <= n <= |s| && Ready(m, g, s) && c in m
    requires forall q :: j <= q < n ==> s[q] != c
    ensures PropagatedFirst(m, g, flags, dt, s, n)[c] == PropagatedFirst(m, g, flags, dt, s, j)[c]
  {
    var i := j;
    while i < n
      invariant j <= i <= n
      invariant PropagatedFirst(m, g, flags, dt, s, i)[c] == PropagatedFirst(m, g, flags, dt, s, j)[c]
    {
      PropagatedOther(m, g, flags, dt, s, i, c);
      i := i + 1;
    }
  }

  /** With each cell listed once, the in-place loop gives every listed cell
    * the update computed from the cells as they were before the loop (it
    * writes only B and reads only E), and leaves the other cells as they
    * were. */
  lemma PropagatedSimultaneous(m: CellMap, g: NeighbourQuery, flags: map<CellID, Word>, dt: real, s: seq<CellID>, n: nat, k: nat)
    requires n <= |s| && Ready(m, g, s) && Distinct(s) && k < n
    ensures R.NeighbourhoodKnown(m, g, s[k]) && P.Sized(m[s[k]])
    ensures PropagatedFirst(m, g, flags, dt, s, n)[s[k]] == P.PropagatedCell(m[s[k]], AboveOf(m, g, s[k]), R.FlagOf(flags, s[k]), dt)
  {
    PropagatedLast(m, g, flags, dt, s, k);
    PropagatedSettled(m, g, flags, dt, s, n, k);
  }

  /** With each cell listed once, s[k] keeps after the loop what step k
    * gave it. */
  lemma PropagatedSettled(m: CellMap, g: NeighbourQuery, flags: map<CellID, Word>, dt: real, s: seq<CellID>, n: nat, k: nat)
    requires n <= |s| && Ready(m, g, s) && Distinct(s) && k < n
    ensures PropagatedFirst(m, g, flags, dt, s, n)[s[k]] == PropagatedAt(m, g, flags, dt, s, k)[s[k]]
  {
    PropagatedUnfold(m, g, flags, dt, s, k);
    PropagatedKeptAfter(m, g, flags, dt, s, n, k);
  }

  lemma PropagatedKeptAfter(m: CellMap, g: NeighbourQuery, flags: map<CellID, Word>, dt: real, s: seq<CellID>, n: nat, k: nat)
    requires n <= |s| && Ready(m, g, s) && Distinct(s) && k < n
    ensures PropagatedFirst(m, g, flags, dt, s, n)[s[k]] == PropagatedFirst(m, g, flags, dt, s, k + 1)[s[k]]
  {
    PropagatedKept(m, g, flags, dt, s, k + 1, n, s[k]);
  }

  /** Step k gives s[k], not named before, the update computed from the
    * cells before the loop. */
  lemma PropagatedLast(m: CellMap, g: NeighbourQuery, flags: map<CellID, Word>, dt: real, s: seq<CellID>, k: nat)
    requires k < |s| && Ready(m, g, s) && Distinct(s)
    ensures R.NeighbourhoodKnown(m, g, s[k]) && P.Sized(m[s[k]])
    ensures PropagatedAt(m, g, flags, dt, s, k)[s[k]] == P.PropagatedCell(m[s[k]], AboveOf(m, g, s[k]), R.FlagOf(flags, s[k]), dt)
  {
    var c := s[k];
    var f := PropagatedFirst(m, g, flags, dt, s, k);
    ReadyKept(m, f, g, s, BX, BZ + 1);
    PropagatedKept(m, g, flags, dt, s, 0, k, c);
    AboveKeepsE(m, f, g, c);
    PropagatedCellReadsE(m[c], AboveOf(f, g, c), AboveOf(m, g, c), R.FlagOf(flags, c), dt);
  }

  // ---------------------------------------------------------------------
  // propagateMagneticFieldSimple, second loop

  /** Each listed cell is stored. */
  predicate Stored(m: CellMap, s: seq<CellID>)
  {
    forall q :: 0 <= q < |s| ==> s[q] in m
  }

  /** B_a of one cell after the boundary step: when the cell's PROPAGATE_Ba
    * gate fails it takes the boundary value, computed from the cells as
    * they are at that point. */
  function BoundaryAxis(m: CellMap, flags: map<CellID, Word>, bc: BoundaryCondB, c: CellID, a: Axis): (r: CellMap)
    requires c in m
    ensures Within(m, r, BX, BZ + 1)
  {
    var f := R.FlagOf(flags, c);
    if P.Propagates(f, a) then m
    else m[c := CellData(m[c].cp[BSlot(a) := bc(a, m, c, f)], m[c].der)]
  }

  /** The boundary step on one cell: B_x, B_y and B_z in turn. */
  function BoundaryCell(m: CellMap, flags: map<CellID, Word>, bc: BoundaryCondB, c: CellID): (r: CellMap)
    requires c in m
    ensures Within(m, r, BX, BZ + 1)
  {
    var m1 := BoundaryAxis(m, flags, bc, c, 0);
    var m2 := BoundaryAxis(m1, flags, bc, c, 1);
    var m3 := BoundaryAxis(m2, flags, bc, c, 2);
    WithinTrans(m, m1, m2, BX, BZ + 1);
    WithinTrans(m, m2, m3, BX, BZ + 1);
    m3
  }

  /** The cells after the boundary step has run on s[0] to s[n-1], in
    * order. */
  function BoundaryFirst(m: CellMap, flags: map<CellID, Word>, bc: BoundaryCondB, s: seq<CellID>, n: nat): (r: CellMap)
    requires n <= |s| && Stored(m, s)
    ensures Within(m, r, BX, BZ + 1)
    decreases n, 0
  {
    if n == 0 then m else BoundaryThrough(m, flags, bc, s, n - 1)
  }

  function BoundaryThrough(m: CellMap, flags: map<CellID, Word>, bc: BoundaryCondB, s: seq<CellID>, k: nat): (r: CellMap)
    requires k < |s| && Stored(m, s)
    ensures Within(m, r, BX, BZ + 1)
    decreases k, 2
  {
    BoundaryAt(m, flags, bc, s, k)
  }

  function BoundaryAt(m: CellMap, flags: map<CellID, Word>, bc: BoundaryCondB, s: seq<CellID>, k: nat): (r: CellMap)
    requires k < |s| && Stored(m, s)
    ensures Within(m, r, BX, BZ + 1)
    decreases k, 1
  {
    var f := BoundaryFirst(m, flags, bc, s, k);
    var r := BoundaryCell(f, flags, bc, s[k]);
    WithinTrans(m, f, r, BX, BZ + 1);
    r
  }

  lemma BoundaryUnfold(m: CellMap, flags: map<CellID, Word>, bc: BoundaryCondB, s: seq<CellID>, k: nat)
    requires k < |s| && Stored(m, s)
    ensures BoundaryFirst(m, flags, bc, s, k + 1) == BoundaryAt(m, flags, bc, s, k)
  {
    assert BoundaryFirst(m, flags, bc, s, k + 1) == BoundaryThrough(m, flags, bc, s, k);
  }

  /** A component whose gate holds is not touched by the boundary step. */
  lemma BoundaryCellKeepsGated(m: CellMap, flags: map<CellID, Word>, bc: BoundaryCondB, c: CellID, id: CellID, a: Axis)
    requires c in m && id in m && P.Propagates(R.FlagOf(flags, id), a)
    ensures BoundaryCell(m, flags, bc, c)[id].cp[BSlot(a)] == m[id].cp[BSlot(a)]
  {
    var m1 := BoundaryAxis(m, flags, bc, c, 0);
    var m2 := BoundaryAxis(m1, flags, bc, c, 1);
    assert m1[id].cp[BSlot(a)] == m[id].cp[BSlot(a)];
    assert m2[id].cp[BSlot(a)] == m1[id].cp[BSlot(a)];
  }

  /** The boundary loop keeps every B component whose gate holds, so those
    * components keep the value the first loop gave them. */
  lemma BoundaryKeepsGated(m: CellMap, flags: map<CellID, Word>, bc: BoundaryCondB, s: seq<CellID>, n: nat, id: CellID, a: Axis)
    requires n <= |s| && Stored(m, s) && id in m && P.Propagates(R.FlagOf(flags, id), a)
    ensures BoundaryFirst(m, flags, bc, s, n)[id].cp[BSlot(a)] == m[id].cp[BSlot(a)]
  {
    var i := 0;
    while i < n
      invariant i <= n
      invariant BoundaryFirst(m, flags, bc, s, i)[id].cp[BSlot(a)] == m[id].cp[BSlot(a)]
    {
      var f := BoundaryFirst(m, flags, bc, s, i);
      BoundaryNext(m, flags, bc, s, i, f);
      BoundaryCellKeepsGated(f, flags, bc, s[i], id, a);
      i := i + 1;
    }
  }

  lemma ReadyStored(m: CellMap, g: NeighbourQuery, s: seq<CellID>)
    requires Ready(m, g, s)
    ensures Stored(m, s)
  {
  }

  /** propagateMagneticFieldSimple: the update loop, then the boundary loop. */
  function MagneticFieldPropagated(m: CellMap, g: NeighbourQuery, flags: map<CellID, Word>, dt: real, bc: BoundaryCondB, s: seq<CellID>): (r: CellMap)
    requires Ready(m, g, s)
    ensures Within(m, r, BX, BZ + 1)
  {
    var m1 := PropagatedFirst(m, g, flags, dt, s, |s|);
    ReadyKept(m, m1, g, s, BX, BZ + 1);
    ReadyStored(m1, g, s);
    var r := BoundaryFirst(m1, flags, bc, s, |s|);
    WithinTrans(m, m1, r, BX, BZ + 1);
    r
  }

  /** A listed cell whose three PROPAGATE_B gates hold ends the call with
    * the update computed from the cells before the call. */
  lemma InteriorCellAdvanced(m: CellMap, g: NeighbourQuery, flags: map<CellID, Word>, dt: real, bc: BoundaryCondB, s: seq<CellID>, k: nat)
    requires Ready(m, g, s) && Distinct(s) && k < |s|
    requires forall a: Axis :: P.Propagates(R.FlagOf(flags, s[k]), a)
    ensures R.NeighbourhoodKnown(m, g, s[k]) && P.Sized(m[s[k]])
    ensures MagneticFieldPropagated(m, g, flags, dt, bc, s)[s[k]]
      == P.PropagatedCell(m[s[k]], AboveOf(m, g, s[k]), R.FlagOf(flags, s[k]), dt)
  {
    var c := s[k];
    var m1 := PropagatedFirst(m, g, flags, dt, s, |s|);
    ReadyKept(m, m1, g, s, BX, BZ + 1);
    ReadyStored(m1, g, s);
    PropagatedSimultaneous(m, g, flags, dt, s, |s|, k);
    BoundaryKeepsInterior(m1, flags, bc, s, c);
  }

  /** The boundary loop leaves a cell whose three gates hold as it was. */
  lemma BoundaryKeepsInterior(m: CellMap, flags: map<CellID, Word>, bc: BoundaryCondB, s: seq<CellID>, c: CellID)
    requires Stored(m, s) && c in m
    requires forall a: Axis :: P.Propagates(R.FlagOf(flags, c), a)
    ensures BoundaryFirst(m, flags, bc, s, |s|)[c] == m[c]
  {
    var r := BoundaryFirst(m, flags, bc, s, |s|);
    forall t | 0 <= t < SIZE_CELLPARAMS
      ensures r[c].cp[t] == m[c].cp[t]
    {
      if t < 3 {
        BoundaryKeepsGated(m, flags, bc, s, |s|, c, t);
      }
    }
    SameCell(r[c], m[c]);
  }

  lemma SameCell(x: CellData, y: CellData)
    requires x.der == y.der
    requires forall t :: 0 <= t < SIZE_CELLPARAMS ==> x.cp[t] == y.cp[t]
    ensures x == y
  {
    assert x.cp == y.cp;
  }

  // ---------------------------------------------------------------------
  // calculateDerivativesSimple

  /** r holds the cells of m with the same parameters. */
  predicate DerivativesOnly(m: CellMap, r: CellMap)
  {
    r.Keys == m.Keys && forall id :: id in m ==> r[id].cp == m[id].cp
  }

  /** The cells after calculateDerivatives has run on s[0] to s[n-1], in
    * order. */
  function DerivativesFirst(m: CellMap, flags: map<CellID, Word>, derive: DerivativesOf, s: seq<CellID>, n: nat): (r: CellMap)
    requires n <= |s| && Stored(m, s)
    ensures DerivativesOnly(m, r)
    decreases n, 0
  {
    if n == 0 then m else DerivativesThrough(m, flags, derive, s, n - 1)
  }

  function DerivativesThrough(m: CellMap, flags: map<CellID, Word>, derive: DerivativesOf, s: seq<CellID>, k: nat): (r: CellMap)
    requires k < |s| && Stored(m, s)
    ensures DerivativesOnly(m, r)
    decreases k, 2
  {
    DerivativesAt(m, flags, derive, s, k)
  }

  function DerivativesAt(m: CellMap, flags: map<CellID, Word>, derive: DerivativesOf, s: seq<CellID>, k: nat): (r: CellMap)
    requires k < |s| && Stored(m, s)
    ensures DerivativesOnly(m, r)
    decreases k, 1
  {
    var f := DerivativesFirst(m, flags, derive, s, k);
    var c := s[k];
    f[c := CellData(f[c].cp, derive(f, c, R.FlagOf(flags, c)))]
  }

  lemma DerivativesUnfold(m: CellMap, flags: map<CellID, Word>, derive: DerivativesOf, s: seq<CellID>, k: nat)
    requires k < |s| && Stored(m, s)
    ensures DerivativesFirst(m, flags, derive, s, k + 1) == DerivativesAt(m, flags, derive, s, k)
  {
    assert DerivativesFirst(m, flags, derive, s, k + 1) == DerivativesThrough(m, flags, derive, s, k);
  }

  // ---------------------------------------------------------------------
  // calculateUpwindedElectricFieldSimple

  function CalculateCap(e: Axis): Capability
  {
    if e == 0 then CalculateEX else if e == 1 then CalculateEY else CalculateEZ
  }

  /** The gate (flag & CALCULATE_Ee) == CALCULATE_Ee. */
  predicate Computes(flag: Word, e: Axis)
  {
    Has(flag, CapabilityMask(CalculateCap(e)))
  }

  /** Every edge of the cell whose gate holds can be read. */
  predicate EdgesOfCellReadable(m: CellMap, g: NeighbourQuery, flags: map<CellID, Word>, c: CellID)
  {
    forall e: Axis :: Computes(R.FlagOf(flags, c), e) ==> E.EdgeReadable(m, g, c, e)
  }

  predicate EdgesReadable(m: CellMap, g: NeighbourQuery, flags: map<CellID, Word>, s: seq<CellID>)
  {
    forall q :: 0 <= q < |s| ==> s[q] in m && EdgesOfCellReadable(m, g, flags, s[q])
  }

  /** r holds the cells of m with the same densities. */
  predicate SameDensity(m: CellMap, r: CellMap)
  {
    r.Keys == m.Keys && forall id :: id in m ==> r[id].cp[RHO] == m[id].cp[RHO]
  }

  lemma WithinSameDensity(m: CellMap, r: CellMap, lo: nat, hi: nat)
    requires Within(m, r, lo, hi) && !(lo <= RHO < hi)
    ensures SameDensity(m, r)
  {
  }

  /** The edge functions read only stored cells and densities to decide
    * whether they can run, so a pass that keeps both keeps them runnable. */
  lemma EdgeReadableKept(m: CellMap, r: CellMap, g: NeighbourQuery, c: CellID, e: Axis)
    requires SameDensity(m, r) && E.EdgeReadable(m, g, c, e)
    ensures E.EdgeReadable(r, g, c, e)
  {
    forall da: int, db: int | -1 <= da <= 0 && -1 <= db <= 0
      ensures E.CornerID(g, c, e, da, db) in r && r[E.CornerID(g, c, e, da, db)].cp[RHO] != 0.0
      ensures E.AboveID(g, c, e, da, db) in r
    {
      assert m[E.CornerID(g, c, e, da, db)].cp[RHO] != 0.0;
    }
  }

  lemma EdgesOfCellReadableKept(m: CellMap, r: CellMap, g: NeighbourQuery, flags: map<CellID, Word>, c: CellID)
    requires SameDensity(m, r) && EdgesOfCellReadable(m, g, flags, c)
    ensures EdgesOfCellReadable(r, g, flags, c)
  {
    forall e: Axis | Computes(R.FlagOf(flags, c), e)
      ensures E.EdgeReadable(r, g, c, e)
    {
      EdgeReadableKept(m, r, g, c, e);
    }
  }

  lemma EdgesReadableKept(m: CellMap, r: CellMap, g: NeighbourQuery, flags: map<CellID, Word>, s: seq<CellID>)
    requires SameDensity(m, r) && EdgesReadable(m, g, flags, s)
    ensures EdgesReadable(r, g, flags, s)
  {
    forall q | 0 <= q < |s|
      ensures s[q] in r && EdgesOfCellReadable(r, g, flags, s[q])
    {
      EdgesOfCellReadableKept(m, r, g, flags, s[q]);
    }
  }

  /** E_e of one cell after its edge function, when the gate holds. */
  function EdgeAxis(m: CellMap, g: NeighbourQuery, flags: map<CellID, Word>, fast: E.FastSpeed, c: CellID, e: Axis): (r: CellMap)
    requires c in m && EdgesOfCellReadable(m, g, flags, c)
    ensures Within(m, r, EX, EZ + 1)
  {
    if Computes(R.FlagOf(flags, c), e) then WithE(m, c, e, E.EdgeEAt(m, g, c, e, fast)) else m
  }

  /** The cells with v written into E_e of cell c. */
  function WithE(m: CellMap, c: CellID, e: Axis, v: real): (r: CellMap)
    requires c in m
    ensures Within(m, r, EX, EZ + 1)
    ensures forall id, t: Axis :: id in m && (id != c || t != e) ==> r[id].cp[ESlot(t)] == m[id].cp[ESlot(t)]
  {
    m[c := CellData(m[c].cp[ESlot(e) := v], m[c].der)]
  }

  /** The three edge functions of one cell, x then y then z, each reading
    * the cells as the previous one left them. */
  function EdgeCell(m: CellMap, g: NeighbourQuery, flags: map<CellID, Word>, fast: E.FastSpeed, c: CellID): (r: CellMap)
    requires c in m && EdgesOfCellReadable(m, g, flags, c)
    ensures Within(m, r, EX, EZ + 1)
  {
    var m1 := EdgeAxis(m, g, flags, fast, c, 0);
    EdgesOfCellReadableKept(m, m1, g, flags, c);
    var m2 := EdgeAxis(m1, g, flags, fast, c, 1);
    EdgesOfCellReadableKept(m1, m2, g, flags, c);
    var m3 := EdgeAxis(m2, g, flags, fast, c, 2);
    WithinTrans(m, m1, m2, EX, EZ + 1);
    WithinTrans(m, m2, m3, EX, EZ + 1);
    m3
  }

  /** The cells after the edge functions have run on s[0] to s[n-1], in
    * order. */
  function EdgeFirst(m: CellMap, g: NeighbourQuery, flags: map<CellID, Word>, fast: E.FastSpeed, s: seq<CellID>, n: nat): (r: CellMap)
    requires n <= |s| && EdgesReadable(m, g, flags, s)
    ensures Within(m, r, EX, EZ + 1)
    decreases n, 0
  {
    if n == 0 then m else EdgeThrough(m, g, flags, fast, s, n - 1)
  }

  function EdgeThrough(m: CellMap, g: NeighbourQuery, flags: map<CellID, Word>, fast: E.FastSpeed, s: seq<CellID>, k: nat): (r: CellMap)
    requires k < |s| && EdgesReadable(m, g, flags, s)
    ensures Within(m, r, EX, EZ + 1)
    decreases k, 2
  {
    EdgeAt(m, g, flags, fast, s, k)
  }

  function EdgeAt(m: CellMap, g: NeighbourQuery, flags: map<CellID, Word>, fast: E.FastSpeed, s: seq<CellID>, k: nat): (r: CellMap)
    requires k < |s| && EdgesReadable(m, g, flags, s)
    ensures Within(m, r, EX, EZ + 1)
    decreases k, 1
  {
    var f := EdgeFirst(m, g, flags, fast, s, k);
    WithinSameDensity(m, f, EX, EZ + 1);
    EdgesReadableKept(m, f, g, flags, s);
    var r := EdgeCell(f, g, flags, fast, s[k]);
    WithinTrans(m, f, r, EX, EZ + 1);
    r
  }

  lemma EdgeUnfold(m: CellMap, g: NeighbourQuery, flags: map<CellID, Word>, fast: E.FastSpeed, s: seq<CellID>, k: nat)
    requires k < |s| && EdgesReadable(m, g, flags, s)
    ensures EdgeFirst(m, g, flags, fast, s, k + 1) == EdgeAt(m, g, flags, fast, s, k)
  {
    assert EdgeFirst(m, g, flags, fast, s, k + 1) == EdgeThrough(m, g, flags, fast, s, k);
  }

  /** A component whose gate fails is not touched by the edge functions. */
  lemma EdgeCellKeepsUngated(m: CellMap, g: NeighbourQuery, flags: map<CellID, Word>, fast: E.FastSpeed, c: CellID, id: CellID, e: Axis)
    requires c in m && EdgesOfCellReadable(m, g, flags, c)
    requires id in m && !Computes(R.FlagOf(flags, id), e)
    ensures EdgeCell(m, g, flags, fast, c)[id].cp[ESlot(e)] == m[id].cp[ESlot(e)]
  {
    var m1 := EdgeAxis(m, g, flags, fast, c, 0);
    EdgesOfCellReadableKept(m, m1, g, flags, c);
    var m2 := EdgeAxis(m1, g, flags, fast, c, 1);
    EdgesOfCellReadableKept(m1, m2, g, flags, c);
    var m3 := EdgeAxis(m2, g, flags, fast, c, 2);
    assert EdgeCell(m, g, flags, fast, c) == m3;
    EdgeAxisKeepsUngated(m, g, flags, fast, c, 0, id, e);
    EdgeAxisKeepsUngated(m1, g, flags, fast, c, 1, id, e);
    EdgeAxisKeepsUngated(m2, g, flags, fast, c, 2, id, e);
  }

  lemma EdgeAxisKeepsUngated(m: CellMap, g: NeighbourQuery, flags: map<CellID, Word>, fast: E.FastSpeed, c: CellID, t: Axis, id: CellID, e: Axis)
    requires c in m && EdgesOfCellReadable(m, g, flags, c)
    requires id in m && !Computes(R.FlagOf(flags, id), e)
    ensures EdgeAxis(m, g, flags, fast, c, t)[id].cp[ESlot(e)] == m[id].cp[ESlot(e)]
  {
    if Computes(R.FlagOf(flags, c), t) {
      assert id != c || t != e;
    }
  }

  /** The edge loop keeps every E component whose CALCULATE_E gate fails. */
  lemma EdgeKeepsUngated(m: CellMap, g: NeighbourQuery, flags: map<CellID, Word>, fast: E.FastSpeed, s: seq<CellID>, n: nat, id: CellID, e: Axis)
    requires n <= |s| && EdgesReadable(m, g, flags, s)
    requires id in m && !Computes(R.FlagOf(flags, id), e)
    ensures EdgeFirst(m, g, flags, fast, s, n)[id].cp[ESlot(e)] == m[id].cp[ESlot(e)]
  {
    var i := 0;
    while i < n
      invariant i <= n
      invariant EdgeFirst(m, g, flags, fast, s, i)[id].cp[ESlot(e)] == m[id].cp[ESlot(e)]
    {
      var f := EdgeFirst(m, g, flags, fast, s, i);
      EdgeNext(m, g, flags, fast, s, i, f);
      EdgeCellKeepsUngated(f, g, flags, fast, s[i], id, e);
      i := i + 1;
    }
  }

  /** Two cells that may differ only in their edge E slots. */
  predicate SameButE(x: CellData, y: CellData)
  {
    x.der == y.der && forall t :: 0 <= t < SIZE_CELLPARAMS && !(EX <= t < EZ + 1) ==> x.cp[t] == y.cp[t]
  }

  /** The fast magnetosonic speed reads B, rho and the derivatives of the
    * corner and of the cell above it, never their E (calculateFastMSspeedYZ,
    * XZ and XY). */
  ghost predicate IgnoresE(fast: E.FastSpeed)
  {
    forall e: Axis, x1: CellData, x2: CellData, u1: CellData, u2: CellData, fa: E.FaceB, fb: E.FaceB, sa: real, sb: real ::
      SameButE(x1, x2) && SameButE(u1, u2) ==> fast(e, x1, u1, fa, fb, sa, sb) == fast(e, x2, u2, fa, fb, sa, sb)
  }

  /** A pass that writes only E leaves every edge value as it was. */
  lemma EdgeEAtKept(m: CellMap, r: CellMap, g: NeighbourQuery, c: CellID, e: Axis, fast: E.FastSpeed)
    requires Within(m, r, EX, EZ + 1) && IgnoresE(fast) && E.EdgeReadable(m, g, c, e)
    ensures E.EdgeReadable(r, g, c, e)
    ensures E.EdgeEAt(r, g, c, e, fast) == E.EdgeEAt(m, g, c, e, fast)
  {
    WithinSameDensity(m, r, EX, EZ + 1);
    EdgeReadableKept(m, r, g, c, e);
    var cm, cr := E.Corners(m, g, c, e), E.Corners(r, g, c, e);
    var um, ur := E.Above(m, g, c, e), E.Above(r, g, c, e);
    assert QuadSameButE(cr, cm) && QuadSameButE(ur, um);
    SamplesKept(cr, cm, ur, um, e, fast);
  }

  predicate QuadSameButE(x: E.Quad<CellData>, y: E.Quad<CellData>)
  {
    SameButE(x.sw, y.sw) && SameButE(x.se, y.se) && SameButE(x.nw, y.nw) && SameButE(x.ne, y.ne)
  }

  lemma SamplesKept(cr: E.Quad<CellData>, cm: E.Quad<CellData>, ur: E.Quad<CellData>, um: E.Quad<CellData>, e: Axis, fast: E.FastSpeed)
    requires QuadSameButE(cr, cm) && QuadSameButE(ur, um) && IgnoresE(fast)
    requires cm.sw.cp[RHO] != 0.0 && cm.se.cp[RHO] != 0.0 && cm.nw.cp[RHO] != 0.0 && cm.ne.cp[RHO] != 0.0
    ensures cr.sw.cp[RHO] != 0.0 && cr.se.cp[RHO] != 0.0 && cr.nw.cp[RHO] != 0.0 && cr.ne.cp[RHO] != 0.0
    ensures E.SamplesOf(cr, ur, e, fast) == E.SamplesOf(cm, um, e, fast)
    ensures E.FacesOf(cr, e) == E.FacesOf(cm, e)
    ensures E.FlowOf(cr.sw, e) == E.FlowOf(cm.sw, e) && E.FlowOf(cr.se, e) == E.FlowOf(cm.se, e)
    ensures E.FlowOf(cr.nw, e) == E.FlowOf(cm.nw, e) && E.FlowOf(cr.ne, e) == E.FlowOf(cm.ne, e)
  {
    E.FrameDistinct(e);
    assert E.FacesOf(cr, e) == E.FacesOf(cm, e);
  }

  /** The edge function for axis t of cell c writes E_e of id only when it
    * is id's own function for e, and then it writes the edge value of the
    * cells m the pass started from. */
  lemma EdgeAxisEntry(m: CellMap, f: CellMap, g: NeighbourQuery, flags: map<CellID, Word>, fast: E.FastSpeed, c: CellID, t: Axis, id: CellID, e: Axis)
    requires Within(m, f, EX, EZ + 1) && IgnoresE(fast)
    requires c in f && EdgesOfCellReadable(f, g, flags, c) && id in f
    requires Computes(R.FlagOf(flags, id), e) && E.EdgeReadable(m, g, id, e)
    ensures EdgeAxis(f, g, flags, fast, c, t)[id].cp[ESlot(e)] ==
      if c == id && t == e then E.EdgeEAt(m, g, id, e, fast) else f[id].cp[ESlot(e)]
  {
    if c == id && t == e {
      EdgeEAtKept(m, f, g, id, e, fast);
    }
  }

  /** The three edge functions of cell c give E_e of id the edge value of
    * the cells m when c is id, and leave it alone otherwise. */
  lemma EdgeCellEntry(m: CellMap, f: CellMap, g: NeighbourQuery, flags: map<CellID, Word>, fast: E.FastSpeed, c: CellID, id: CellID, e: Axis)
    requires Within(m, f, EX, EZ + 1) && IgnoresE(fast)
    requires c in f && EdgesOfCellReadable(f, g, flags, c) && id in f
    requires Computes(R.FlagOf(flags, id), e) && E.EdgeReadable(m, g, id, e)
    ensures EdgeCell(f, g, flags, fast, c)[id].cp[ESlot(e)] ==
      if c == id then E.EdgeEAt(m, g, id, e, fast) else f[id].cp[ESlot(e)]
  {
    var m1 := EdgeAxis(f, g, flags, fast, c, 0);
    EdgesOfCellReadableKept(f, m1, g, flags, c);
    var m2 := EdgeAxis(m1, g, flags, fast, c, 1);
    EdgesOfCellReadableKept(m1, m2, g, flags, c);
    var m3 := EdgeAxis(m2, g, flags, fast, c, 2);
    assert EdgeCell(f, g, flags, fast, c) == m3;
    WithinTrans(m, f, m1, EX, EZ + 1);
    WithinTrans(m, m1, m2, EX, EZ + 1);
    EdgeAxisEntry(m, f, g, flags, fast, c, 0, id, e);
    EdgeAxisEntry(m, m1, g, flags, fast, c, 1, id, e);
    EdgeAxisEntry(m, m2, g, flags, fast, c, 2, id, e);
  }

  /** Step k gives E_e of s[k], when its gate holds, the edge value of the
    * cells as they were before the loop. */
  lemma EdgeLast(m: CellMap, g: NeighbourQuery, flags: map<CellID, Word>, fast: E.FastSpeed, s: seq<CellID>, k: nat, j: nat, e: Axis)
    requires k < |s| && j == k + 1 && EdgesReadable(m, g, flags, s) && IgnoresE(fast)
    requires Computes(R.FlagOf(flags, s[k]), e)
    ensures E.EdgeReadable(m, g, s[k], e)
    ensures EdgeFirst(m, g, flags, fast, s, j)[s[k]].cp[ESlot(e)] == E.EdgeEAt(m, g, s[k], e, fast)
  {
    var f := EdgeFirst(m, g, flags, fast, s, k);
    EdgeNext(m, g, flags, fast, s, k, f);
    EdgeCellEntry(m, f, g, flags, fast, s[k], s[k], e);
  }

  /** The in-place edge loop equals a simultaneous update: after steps 0 to
    * n-1, a gated E component of a visited cell holds the edge value
    * computed from the cells before the loop, since the loop writes only E
    * and the edge functions read no E. A cell listed twice gets the same
    * value both times. */
  lemma {:induction false} EdgeSimultaneous(m: CellMap, g: NeighbourQuery, flags: map<CellID, Word>, fast: E.FastSpeed, s: seq<CellID>, n: nat, k: nat, e: Axis)
    requires n <= |s| && EdgesReadable(m, g, flags, s) && IgnoresE(fast) && k < n
    requires Computes(R.FlagOf(flags, s[k]), e)
    ensures E.EdgeReadable(m, g, s[k], e)
    ensures EdgeFirst(m, g, flags, fast, s, n)[s[k]].cp[ESlot(e)] == E.EdgeEAt(m, g, s[k], e, fast)
    decreases n
  {
    if n == k + 1 {
      EdgeLast(m, g, flags, fast, s, k, n, e);
    } else {
      EdgeSimultaneous(m, g, flags, fast, s, n - 1, k, e);
      EdgeStepKeeps(m, g, flags, fast, s, n - 1, n, k, e);
    }
  }

  /** A later step keeps the edge value step k wrote. */
  lemma EdgeStepKeeps(m: CellMap, g: NeighbourQuery, flags: map<CellID, Word>, fast: E.FastSpeed, s: seq<CellID>, i: nat, j: nat, k: nat, e: Axis)
    requires i < |s| && j == i + 1 && EdgesReadable(m, g, flags, s) && IgnoresE(fast) && k < |s|
    requires Computes(R.FlagOf(flags, s[k]), e) && E.EdgeReadable(m, g, s[k], e)
    requires EdgeFirst(m, g, flags, fast, s, i)[s[k]].cp[ESlot(e)] == E.EdgeEAt(m, g, s[k], e, fast)
    ensures EdgeFirst(m, g, flags, fast, s, j)[s[k]].cp[ESlot(e)] == E.EdgeEAt(m, g, s[k], e, fast)
  {
    var f := EdgeFirst(m, g, flags, fast, s, i);
    EdgeNext(m, g, flags, fast, s, i, f);
    EdgeCellEntry(m, f, g, flags, fast, s[i], s[k], e);
  }

  /** The edge functions of cell c change no other cell. */
  lemma EdgeCellOther(m: CellMap, g: NeighbourQuery, flags: map<CellID, Word>, fast: E.FastSpeed, c: CellID, id: CellID)
    requires c in m && EdgesOfCellReadable(m, g, flags, c) && id in m && id != c
    ensures EdgeCell(m, g, flags, fast, c)[id] == m[id]
  {
    var m1 := EdgeAxis(m, g, flags, fast, c, 0);
    EdgesOfCellReadableKept(m, m1, g, flags, c);
    var m2 := EdgeAxis(m1, g, flags, fast, c, 1);
    EdgesOfCellReadableKept(m1, m2, g, flags, c);
    assert EdgeCell(m, g, flags, fast, c) == EdgeAxis(m2, g, flags, fast, c, 2);
    EdgeAxisOther(m, g, flags, fast, c, 0, id);
    EdgeAxisOther(m1, g, flags, fast, c, 1, id);
    EdgeAxisOther(m2, g, flags, fast, c, 2, id);
  }

  lemma EdgeAxisOther(m: CellMap, g: NeighbourQuery, flags: map<CellID, Word>, fast: E.FastSpeed, c: CellID, t: Axis, id: CellID)
    requires c in m && EdgesOfCellReadable(m, g, flags, c) && id in m && id != c
    ensures EdgeAxis(m, g, flags, fast, c, t)[id] == m[id]
  {
  }

  /** A cell the loop does not visit keeps all its data. */
  lemma {:induction false} EdgeUnvisited(m: CellMap, g: NeighbourQuery, flags: map<CellID, Word>, fast: E.FastSpeed, s: seq<CellID>, n: nat, id: CellID)
    requires n <= |s| && EdgesReadable(m, g, flags, s) && id in m
    requires forall q :: 0 <= q < n ==> s[q] != id
    ensures EdgeFirst(m, g, flags, fast, s, n)[id] == m[id]
    decreases n
  {
    if n > 0 {
      EdgeUnvisited(m, g, flags, fast, s, n - 1, id);
      EdgeStepOther(m, g, flags, fast, s, n - 1, n, id);
    }
  }

  lemma EdgeStepOther(m: CellMap, g: NeighbourQuery, flags: map<CellID, Word>, fast: E.FastSpeed, s: seq<CellID>, i: nat, j: nat, id: CellID)
    requires i < |s| && j == i + 1 && EdgesReadable(m, g, flags, s) && id in m && s[i] != id
    ensures EdgeFirst(m, g, flags, fast, s, j)[id] == EdgeFirst(m, g, flags, fast, s, i)[id]
  {
    var f := EdgeFirst(m, g, flags, fast, s, i);
    EdgeNext(m, g, flags, fast, s, i, f);
    EdgeCellOther(f, g, flags, fast, s[i], id);
  }

  // ---------------------------------------------------------------------
  // calculateFaceAveragedFields and calculateVolumeAveragedFields

  /** The neighbourhood of each listed cell is known. */
  predicate AllKnown(m: CellMap, g: NeighbourQuery, s: seq<CellID>)
  {
    forall q :: 0 <= q < |s| ==> R.NeighbourhoodKnown(m, g, s[q])
  }

  lemma AllKnownKept(m: CellMap, r: CellMap, g: NeighbourQuery, s: seq<CellID>)
    requires AllKnown(m, g, s) && r.Keys == m.Keys
    ensures AllKnown(r, g, s)
  {
  }

  /** The face step on one cell changes only its face slots. */
  lemma FaceStepWithin(m: CellMap, g: NeighbourQuery, flags: map<CellID, Word>, c: CellID)
    requires R.NeighbourhoodKnown(m, g, c) && R.FlagsSound(flags, g)
    ensures Within(m, Put(m, c, CellData(R.FaceAveraged(m, g, flags, c), m[c].der)), BXFACEX, EXFACEX + 9)
  {
    forall t | 0 <= t < SIZE_CELLPARAMS && !(BXFACEX <= t < EXFACEX + 9)
      ensures R.FaceAveraged(m, g, flags, c)[t] == m[c].cp[t]
    {
      R.FaceAveragedKeeps(m, g, flags, c, t);
    }
    PutWithin(m, c, CellData(R.FaceAveraged(m, g, flags, c), m[c].der), BXFACEX, EXFACEX + 9);
  }

  /** The cells after the body of calculateFaceAveragedFields has run on
    * s[0] to s[n-1], in order. */
  function FaceAveragedFirst(m: CellMap, g: NeighbourQuery, flags: map<CellID, Word>, s: seq<CellID>, n: nat): (r: CellMap)
    requires n <= |s| && AllKnown(m, g, s) && R.FlagsSound(flags, g)
    ensures r.Keys == m.Keys
    decreases n, 0
  {
    if n == 0 then m else FaceAveragedThrough(m, g, flags, s, n - 1)
  }

  function FaceAveragedThrough(m: CellMap, g: NeighbourQuery, flags: map<CellID, Word>, s: seq<CellID>, k: nat): (r: CellMap)
    requires k < |s| && AllKnown(m, g, s) && R.FlagsSound(flags, g)
    ensures r.Keys == m.Keys
    decreases k, 2
  {
    FaceAveragedAt(m, g, flags, s, k)
  }

  /** Step k: the face slots of s[k] take the averages computed from the
    * cells as they stand. */
  function FaceAveragedAt(m: CellMap, g: NeighbourQuery, flags: map<CellID, Word>, s: seq<CellID>, k: nat): (r: CellMap)
    requires k < |s| && AllKnown(m, g, s) && R.FlagsSound(flags, g)
    ensures r.Keys == m.Keys
    decreases k, 1
  {
    var f := FaceAveragedFirst(m, g, flags, s, k);
    AllKnownKept(m, f, g, s);
    Put(f, s[k], CellData(R.FaceAveraged(f, g, flags, s[k]), f[s[k]].der))
  }

  lemma FaceAveragedUnfold(m: CellMap, g: NeighbourQuery, flags: map<CellID, Word>, s: seq<CellID>, k: nat)
    requires k < |s| && AllKnown(m, g, s) && R.FlagsSound(flags, g)
    ensures FaceAveragedFirst(m, g, flags, s, k + 1) == FaceAveragedAt(m, g, flags, s, k)
  {
    assert FaceAveragedFirst(m, g, flags, s, k + 1) == FaceAveragedThrough(m, g, flags, s, k);
  }

  /** The loop changes only face slots. */
  lemma FaceAveragedWithin(m: CellMap, g: NeighbourQuery, flags: map<CellID, Word>, s: seq<CellID>, n: nat)
    requires n <= |s| && AllKnown(m, g, s) && R.FlagsSound(flags, g)
    ensures Within(m, FaceAveragedFirst(m, g, flags, s, n), BXFACEX, EXFACEX + 9)
  {
    var i := 0;
    while i < n
      invariant i <= n
      invariant Within(m, FaceAveragedFirst(m, g, flags, s, i), BXFACEX, EXFACEX + 9)
    {
      FaceAveragedWithinStep(m, g, flags, s, i);
      i := i + 1;
    }
  }

  lemma FaceAveragedWithinStep(m: CellMap, g: NeighbourQuery, flags: map<CellID, Word>, s: seq<CellID>, i: nat)
    requires i < |s| && AllKnown(m, g, s) && R.FlagsSound(flags, g)
    requires Within(m, FaceAveragedFirst(m, g, flags, s, i), BXFACEX, EXFACEX + 9)
    ensures Within(m, FaceAveragedFirst(m, g, flags, s, i + 1), BXFACEX, EXFACEX + 9)
  {
    var f := FaceAveragedFirst(m, g, flags, s, i);
    FaceAveragedNext(m, g, flags, s, i, f);
    FaceStepWithin(f, g, flags, s[i]);
    WithinTrans(m, f, FaceAveragedFirst(m, g, flags, s, i + 1), BXFACEX, EXFACEX + 9);
  }

  /** The volume step on one cell changes only its volume slots. */
  lemma VolumeStepWithin(m: CellMap, g: NeighbourQuery, flags: map<CellID, Word>, c: CellID)
    requires R.NeighbourhoodKnown(m, g, c) && R.FlagsSound(flags, g)
    ensures Within(m, Put(m, c, CellData(R.VolumeAveraged(m, g, flags, c), m[c].der)), BXVOL, EZVOL + 1)
  {
    forall t | 0 <= t < SIZE_CELLPARAMS && !(BXVOL <= t < EZVOL + 1)
      ensures R.VolumeAveraged(m, g, flags, c)[t] == m[c].cp[t]
    {
      R.VolumeAveragedKeeps(m, g, flags, c, t);
    }
    PutWithin(m, c, CellData(R.VolumeAveraged(m, g, flags, c), m[c].der), BXVOL, EZVOL + 1);
  }

  /** The cells after the body of calculateVolumeAveragedFields has run on
    * s[0] to s[n-1], in order. */
  function VolumeAveragedFirst(m: CellMap, g: NeighbourQuery, flags: map<CellID, Word>, s: seq<CellID>, n: nat): (r: CellMap)
    requires n <= |s| && AllKnown(m, g, s) && R.FlagsSound(flags, g)
    ensures r.Keys == m.Keys
    decreases n, 0
  {
    if n == 0 then m else VolumeAveragedThrough(m, g, flags, s, n - 1)
  }

  function VolumeAveragedThrough(m: CellMap, g: NeighbourQuery, flags: map<CellID, Word>, s: seq<CellID>, k: nat): (r: CellMap)
    requires k < |s| && AllKnown(m, g, s) && R.FlagsSound(flags, g)
    ensures r.Keys == m.Keys
    decreases k, 2
  {
    VolumeAveragedAt(m, g, flags, s, k)
  }

  /** Step k: the volume slots of s[k] take the averages computed from the
    * cells as they stand. */
  function VolumeAveragedAt(m: CellMap, g: NeighbourQuery, flags: map<CellID, Word>, s: seq<CellID>, k: nat): (r: CellMap)
    requires k < |s| && AllKnown(m, g, s) && R.FlagsSound(flags, g)
    ensures r.Keys == m.Keys
    decreases k, 1
  {
    var f := VolumeAveragedFirst(m, g, flags, s, k);
    AllKnownKept(m, f, g, s);
    Put(f, s[k], CellData(R.VolumeAveraged(f, g, flags, s[k]), f[s[k]].der))
  }

  lemma VolumeAveragedUnfold(m: CellMap, g: NeighbourQuery, flags: map<CellID, Word>, s: seq<CellID>, k: nat)
    requires k < |s| && AllKnown(m, g, s) && R.FlagsSound(flags, g)
    ensures VolumeAveragedFirst(m, g, flags, s, k + 1) == VolumeAveragedAt(m, g, flags, s, k)
  {
    assert VolumeAveragedFirst(m, g, flags, s, k + 1) == VolumeAveragedThrough(m, g, flags, s, k);
  }

  /** The loop changes only volume slots. */
  lemma VolumeAveragedWithin(m: CellMap, g: NeighbourQuery, flags: map<CellID, Word>, s: seq<CellID>, n: nat)
    requires n <= |s| && AllKnown(m, g, s) && R.FlagsSound(flags, g)
    ensures Within(m, VolumeAveragedFirst(m, g, flags, s, n), BXVOL, EZVOL + 1)
  {
    var i := 0;
    while i < n
      invariant i <= n
      invariant Within(m, VolumeAveragedFirst(m, g, flags, s, i), BXVOL, EZVOL + 1)
    {
      VolumeAveragedWithinStep(m, g, flags, s, i);
      i := i + 1;
    }
  }

  lemma VolumeAveragedWithinStep(m: CellMap, g: NeighbourQuery, flags: map<CellID, Word>, s: seq<CellID>, i: nat)
    requires i < |s| && AllKnown(m, g, s) && R.FlagsSound(flags, g)
    requires Within(m, VolumeAveragedFirst(m, g, flags, s, i), BXVOL, EZVOL + 1)
    ensures Within(m, VolumeAveragedFirst(m, g, flags, s, i + 1), BXVOL, EZVOL + 1)
  {
    var f := VolumeAveragedFirst(m, g, flags, s, i);
    VolumeAveragedNext(m, g, flags, s, i, f);
    VolumeStepWithin(f, g, flags, s[i]);
    WithinTrans(m, f, VolumeAveragedFirst(m, g, flags, s, i + 1), BXVOL, EZVOL + 1);
  }

  // ---------------------------------------------------------------------
  // The averages read only B, E and the derivatives

  /** Two cells with the same B, E and derivatives. */
  predicate Agree(x: CellData, y: CellData)
  {
    x.der == y.der && forall t :: 0 <= t <= EZ ==> x.cp[t] == y.cp[t]
  }

  /** r holds the cells of m with the same B, E and derivatives. */
  predicate SameFields(m: CellMap, r: CellMap)
  {
    r.Keys == m.Keys && forall id :: id in m ==> Agree(m[id], r[id])
  }

  lemma WithinSameFields(m: CellMap, r: CellMap, lo: nat, hi: nat)
    requires Within(m, r, lo, hi) && EZ < lo
    ensures SameFields(m, r)
  {
  }

  lemma CoefficientsFrame(x: CellData, px: CellData, py: CellData, pz: CellData,
                          y: CellData, qx: CellData, qy: CellData, qz: CellData)
    requires Agree(x, y) && Agree(px, qx) && Agree(py, qy) && Agree(pz, qz)
    ensures R.CoefficientsOf(x, px, py, pz) == R.CoefficientsOf(y, qx, qy, qz)
  {
    assert x.cp[BX] == y.cp[BX] && x.cp[BY] == y.cp[BY] && x.cp[BZ] == y.cp[BZ];
    assert px.cp[BX] == qx.cp[BX] && py.cp[BY] == qy.cp[BY] && pz.cp[BZ] == qz.cp[BZ];
  }

  lemma ReadFrame(m: CellMap, r: CellMap, id: CellID)
    requires SameFields(m, r) && R.Known(m, id)
    ensures R.Known(r, id) && Agree(ReadOrZero(m, id), ReadOrZero(r, id))
  {
  }

  lemma ReconstructionFrame(m: CellMap, r: CellMap, cell: CellID, i2: CellID, j2: CellID, k2: CellID)
    requires SameFields(m, r)
    requires cell == INVALID_CELLID || (cell in m && R.Known(m, i2) && R.Known(m, j2) && R.Known(m, k2))
    ensures cell == INVALID_CELLID || (cell in r && R.Known(r, i2) && R.Known(r, j2) && R.Known(r, k2))
    ensures R.ReconstructionCoefficients(r, cell, i2, j2, k2) == R.ReconstructionCoefficients(m, cell, i2, j2, k2)
  {
    if cell != INVALID_CELLID {
      ReadFrame(m, r, i2);
      ReadFrame(m, r, j2);
      ReadFrame(m, r, k2);
      CoefficientsFrame(m[cell], ReadOrZero(m, i2), ReadOrZero(m, j2), ReadOrZero(m, k2),
                        r[cell], ReadOrZero(r, i2), ReadOrZero(r, j2), ReadOrZero(r, k2));
    }
  }

  lemma FaceBFrame(m: CellMap, r: CellMap, g: NeighbourQuery, c: CellID, n: Axis)
    requires SameFields(m, r) && R.NeighbourhoodKnown(m, g, c)
    ensures R.NeighbourhoodKnown(r, g, c)
    ensures R.FaceB(r, g, c, n) == R.FaceB(m, g, c, n)
  {
    ReconstructionFrame(m, r, c, Nbr(g, c, 1, 0, 0), Nbr(g, c, 0, 1, 0), Nbr(g, c, 0, 0, 1));
    var lo := R.Lower(g, c, n);
    ReconstructionFrame(m, r, lo, R.LowerUp(g, c, n, 0), R.LowerUp(g, c, n, 1), R.LowerUp(g, c, n, 2));
    assert R.OwnCoefficients(r, g, c) == R.OwnCoefficients(m, g, c);
    assert R.LowerCoefficients(r, g, c, n) == R.LowerCoefficients(m, g, c, n);
    assert m[c].cp[BSlot(n)] == r[c].cp[BSlot(n)];
    if lo != INVALID_CELLID {
      assert m[lo].cp[BSlot(n)] == r[lo].cp[BSlot(n)];
    }
  }

  lemma {:induction false} SumEFrame(m: CellMap, r: CellMap, g: NeighbourQuery, c: CellID, os: seq<R.Offset>, t: Axis)
    requires SameFields(m, r) && R.SmallOffsets(os) && R.AllStored(m, g, c, os)
    ensures R.AllStored(r, g, c, os)
    ensures R.SumE(r, g, c, os, t) == R.SumE(m, g, c, os, t)
    decreases |os|
  {
    if |os| > 0 {
      var front := os[..|os| - 1];
      assert forall q :: 0 <= q < |front| ==> front[q] == os[q];
      SumEFrame(m, r, g, c, front, t);
      var id := R.CellAt(g, c, os[|os| - 1]);
      assert m[id].cp[ESlot(t)] == r[id].cp[ESlot(t)];
    }
  }

  lemma FaceEComponentFrame(m: CellMap, r: CellMap, g: NeighbourQuery, c: CellID, n: Axis, t: Axis)
    requires SameFields(m, r) && R.AllStored(m, g, c, R.FaceECells(n))
    ensures R.AllStored(r, g, c, R.FaceECells(n))
    ensures R.FaceEComponent(r, g, c, n, R.FaceECells(n), t) == R.FaceEComponent(m, g, c, n, R.FaceECells(n), t)
  {
    var os := R.FaceECells(n);
    SumEFrame(m, r, g, c, os, t);
    if t != n {
      var a := R.CellAt(g, c, os[0]);
      var b := R.CellAt(g, c, os[R.PairIndex(n, t)]);
      assert m[a].cp[ESlot(t)] == r[a].cp[ESlot(t)];
      assert m[b].cp[ESlot(t)] == r[b].cp[ESlot(t)];
    }
  }

  lemma FaceEFrame(m: CellMap, r: CellMap, g: NeighbourQuery, flags: map<CellID, Word>, c: CellID, n: Axis)
    requires SameFields(m, r) && R.NeighbourhoodKnown(m, g, c) && R.FlagsSound(flags, g)
    ensures R.NeighbourhoodKnown(r, g, c)
    ensures R.CellFaceE(r, g, flags, c, n) == R.CellFaceE(m, g, flags, c, n)
  {
    R.GatesStored(m, g, flags, c);
    if Has(R.FlagOf(flags, c), R.FaceEMask(n)) {
      FaceEComponentFrame(m, r, g, c, n, 0);
      FaceEComponentFrame(m, r, g, c, n, 1);
      FaceEComponentFrame(m, r, g, c, n, 2);
    }
  }

  /** The face step computes the same values from cells that differ only
    * in face slots: it reads B, E and derivatives, and overwrites every
    * face slot of the cell. */
  lemma FaceAveragedFrame(m: CellMap, r: CellMap, g: NeighbourQuery, flags: map<CellID, Word>, c: CellID)
    requires Within(m, r, BXFACEX, EXFACEX + 9) && R.NeighbourhoodKnown(m, g, c) && R.FlagsSound(flags, g)
    ensures R.NeighbourhoodKnown(r, g, c)
    ensures R.FaceAveraged(r, g, flags, c) == R.FaceAveraged(m, g, flags, c)
  {
    WithinSameFields(m, r, BXFACEX, EXFACEX + 9);
    FaceBsFrame(m, r, g, c);
    FaceEsFrame(m, r, g, flags, c);
    WithFacesFrame(m[c].cp, r[c].cp, R.FaceBs(m, g, c), R.FaceEs(m, g, flags, c));
  }

  lemma FaceBsFrame(m: CellMap, r: CellMap, g: NeighbourQuery, c: CellID)
    requires SameFields(m, r) && R.NeighbourhoodKnown(m, g, c)
    ensures R.NeighbourhoodKnown(r, g, c)
    ensures R.FaceBs(r, g, c) == R.FaceBs(m, g, c)
  {
    FaceBFrame(m, r, g, c, 0);
    FaceBFrame(m, r, g, c, 1);
    FaceBFrame(m, r, g, c, 2);
  }

  lemma FaceEsFrame(m: CellMap, r: CellMap, g: NeighbourQuery, flags: map<CellID, Word>, c: CellID)
    requires SameFields(m, r) && R.NeighbourhoodKnown(m, g, c) && R.FlagsSound(flags, g)
    ensures R.NeighbourhoodKnown(r, g, c)
    ensures R.FaceEs(r, g, flags, c) == R.FaceEs(m, g, flags, c)
  {
    FaceEFrame(m, r, g, flags, c, 0);
    FaceEFrame(m, r, g, flags, c, 1);
    FaceEFrame(m, r, g, flags, c, 2);
  }

  lemma WithFacesFrame(x: Params, y: Params, b: R.Faces, e: R.Faces)
    requires forall t :: 0 <= t < SIZE_CELLPARAMS && !(BXFACEX <= t < EXFACEX + 9) ==> x[t] == y[t]
    ensures R.WithFaces(x, b, e) == R.WithFaces(y, b, e)
  {
    assert x[..BXFACEX] == y[..BXFACEX];
    assert x[EXFACEX + 9..] == y[EXFACEX + 9..];
  }

  lemma VolumeEFrame(m: CellMap, r: CellMap, g: NeighbourQuery, flags: map<CellID, Word>, c: CellID, t: Axis)
    requires SameFields(m, r) && R.NeighbourhoodKnown(m, g, c) && R.FlagsSound(flags, g)
    ensures R.NeighbourhoodKnown(r, g, c)
    ensures R.CellVolumeE(r, g, flags, c, t) == R.CellVolumeE(m, g, flags, c, t)
  {
    R.GatesStored(m, g, flags, c);
    if Has(R.FlagOf(flags, c), R.VolumeEMask(t)) {
      SumEFrame(m, r, g, c, R.VolumeECells(t), t);
    }
  }

  /** The volume step computes the same values from cells that differ only
    * in volume slots. */
  lemma VolumeAveragedFrame(m: CellMap, r: CellMap, g: NeighbourQuery, flags: map<CellID, Word>, c: CellID)
    requires Within(m, r, BXVOL, EZVOL + 1) && R.NeighbourhoodKnown(m, g, c) && R.FlagsSound(flags, g)
    ensures R.NeighbourhoodKnown(r, g, c)
    ensures R.VolumeAveraged(r, g, flags, c) == R.VolumeAveraged(m, g, flags, c)
  {
    WithinSameFields(m, r, BXVOL, EZVOL + 1);
    ReconstructionFrame(m, r, c, Nbr(g, c, 1, 0, 0), Nbr(g, c, 0, 1, 0), Nbr(g, c, 0, 0, 1));
    assert R.OwnCoefficients(r, g, c) == R.OwnCoefficients(m, g, c);
    VolumeEFrame(m, r, g, flags, c, 0);
    VolumeEFrame(m, r, g, flags, c, 1);
    VolumeEFrame(m, r, g, flags, c, 2);
    assert r[c].cp[..BXVOL] == m[c].cp[..BXVOL];
    assert r[c].cp[EZVOL + 1..] == m[c].cp[EZVOL + 1..];
  }

  /** Step i leaves every cell but s[i] as it was. */
  lemma FaceAveragedOther(m: CellMap, g: NeighbourQuery, flags: map<CellID, Word>, s: seq<CellID>, i: nat, c: CellID)
    requires i < |s| && AllKnown(m, g, s) && R.FlagsSound(flags, g) && c in m && s[i] != c
    ensures FaceAveragedFirst(m, g, flags, s, i + 1)[c] == FaceAveragedFirst(m, g, flags, s, i)[c]
  {
    FaceAveragedNext(m, g, flags, s, i, FaceAveragedFirst(m, g, flags, s, i));
  }

  /** A cell steps j to n-1 do not name keeps the data it had after step
    * j-1. */
  lemma FaceAveragedKept(m: CellMap, g: NeighbourQuery, flags: map<CellID, Word>, s: seq<CellID>, j: nat, n: nat, c: CellID)
    requires j <= n <= |s| && AllKnown(m, g, s) && R.FlagsSound(flags, g) && c in m
    requires forall q :: j <= q < n ==> s[q] != c
    ensures FaceAveragedFirst(m, g, flags, s, n)[c] == FaceAveragedFirst(m, g, flags, s, j)[c]
  {
    var i := j;
    while i < n
      invariant j <= i <= n
      invariant FaceAveragedFirst(m, g, flags, s, i)[c] == FaceAveragedFirst(m, g, flags, s, j)[c]
    {
      FaceAveragedOther(m, g, flags, s, i, c);
      i := i + 1;
    }
  }

  /** With each cell listed once, the in-place loop gives every listed cell
    * the face averages computed from the cells as they were before the loop: it
    * writes only face slots, which no step reads. */
  lemma FaceAveragedSimultaneous(m: CellMap, g: NeighbourQuery, flags: map<CellID, Word>, s: seq<CellID>, n: nat, k: nat)
    requires n <= |s| && AllKnown(m, g, s) && R.FlagsSound(flags, g) && Distinct(s) && k < n
    ensures R.NeighbourhoodKnown(m, g, s[k])
    ensures FaceAveragedFirst(m, g, flags, s, n)[s[k]] == CellData(R.FaceAveraged(m, g, flags, s[k]), m[s[k]].der)
  {
    FaceAveragedLast(m, g, flags, s, k);
    FaceAveragedSettled(m, g, flags, s, n, k);
  }

  /** With each cell listed once, s[k] keeps after the loop what step k
    * gave it. */
  lemma FaceAveragedSettled(m: CellMap, g: NeighbourQuery, flags: map<CellID, Word>, s: seq<CellID>, n: nat, k: nat)
    requires n <= |s| && AllKnown(m, g, s) && R.FlagsSound(flags, g) && Distinct(s) && k < n
    ensures FaceAveragedFirst(m, g, flags, s, n)[s[k]] == FaceAveragedAt(m, g, flags, s, k)[s[k]]
  {
    FaceAveragedUnfold(m, g, flags, s, k);
    FaceAveragedKept(m, g, flags, s, k + 1, n, s[k]);
  }

  /** Step k gives s[k], not named before, the averages computed from the
    * cells before the loop. */
  lemma FaceAveragedLast(m: CellMap, g: NeighbourQuery, flags: map<CellID, Word>, s: seq<CellID>, k: nat)
    requires k < |s| && AllKnown(m, g, s) && R.FlagsSound(flags, g) && Distinct(s)
    ensures R.NeighbourhoodKnown(m, g, s[k])
    ensures FaceAveragedAt(m, g, flags, s, k)[s[k]] == CellData(R.FaceAveraged(m, g, flags, s[k]), m[s[k]].der)
  {
    var c := s[k];
    var f := FaceAveragedFirst(m, g, flags, s, k);
    FaceAveragedKept(m, g, flags, s, 0, k, c);
    FaceAveragedWithin(m, g, flags, s, k);
    FaceAveragedFrame(m, f, g, flags, c);
  }

  /** Step i leaves every cell but s[i] as it was. */
  lemma VolumeAveragedOther(m: CellMap, g: NeighbourQuery, flags: map<CellID, Word>, s: seq<CellID>, i: nat, c: CellID)
    requires i < |s| && AllKnown(m, g, s) && R.FlagsSound(flags, g) && c in m && s[i] != c
    ensures VolumeAveragedFirst(m, g, flags, s, i + 1)[c] == VolumeAveragedFirst(m, g, flags, s, i)[c]
  {
    VolumeAveragedNext(m, g, flags, s, i, VolumeAveragedFirst(m, g, flags, s, i));
  }

  /** A cell steps j to n-1 do not name keeps the data it had after step
    * j-1. */
  lemma VolumeAveragedKept(m: CellMap, g: NeighbourQuery, flags: map<CellID, Word>, s: seq<CellID>, j: nat, n: nat, c: CellID)
    requires j <= n <= |s| && AllKnown(m, g, s) && R.FlagsSound(flags, g) && c in m
    requires forall q :: j <= q < n ==> s[q] != c
    ensures VolumeAveragedFirst(m, g, flags, s, n)[c] == VolumeAveragedFirst(m, g, flags, s, j)[c]
  {
    var i := j;
    while i < n
      invariant j <= i <= n
      invariant VolumeAveragedFirst(m, g, flags, s, i)[c] == VolumeAveragedFirst(m, g, flags, s, j)[c]
    {
      VolumeAveragedOther(m, g, flags, s, i, c);
      i := i + 1;
    }
  }

  /** With each cell listed once, the in-place loop gives every listed cell
    * the volume averages computed from the cells as they were before the loop: it
    * writes only volume slots, which no step reads. */
  lemma VolumeAveragedSimultaneous(m: CellMap, g: NeighbourQuery, flags: map<CellID, Word>, s: seq<CellID>, n: nat, k: nat)
    requires n <= |s| && AllKnown(m, g, s) && R.FlagsSound(flags, g) && Distinct(s) && k < n
    ensures R.NeighbourhoodKnown(m, g, s[k])
    ensures VolumeAveragedFirst(m, g, flags, s, n)[s[k]] == CellData(R.VolumeAveraged(m, g, flags, s[k]), m[s[k]].der)
  {
    VolumeAveragedLast(m, g, flags, s, k);
    VolumeAveragedSettled(m, g, flags, s, n, k);
  }

  /** With each cell listed once, s[k] keeps after the loop what step k
    * gave it. */
  lemma VolumeAveragedSettled(m: CellMap, g: NeighbourQuery, flags: map<CellID, Word>, s: seq<CellID>, n: nat, k: nat)
    requires n <= |s| && AllKnown(m, g, s) && R.FlagsSound(flags, g) && Distinct(s) && k < n
    ensures VolumeAveragedFirst(m, g, flags, s, n)[s[k]] == VolumeAveragedAt(m, g, flags, s, k)[s[k]]
  {
    VolumeAveragedUnfold(m, g, flags, s, k);
    VolumeAveragedKept(m, g, flags, s, k + 1, n, s[k]);
  }

  /** Step k gives s[k], not named before, the averages computed from the
    * cells before the loop. */
  lemma VolumeAveragedLast(m: CellMap, g: NeighbourQuery, flags: map<CellID, Word>, s: seq<CellID>, k: nat)
    requires k < |s| && AllKnown(m, g, s) && R.FlagsSound(flags, g) && Distinct(s)
    ensures R.NeighbourhoodKnown(m, g, s[k])
    ensures VolumeAveragedAt(m, g, flags, s, k)[s[k]] == CellData(R.VolumeAveraged(m, g, flags, s[k]), m[s[k]].der)
  {
    var c := s[k];
    var f := VolumeAveragedFirst(m, g, flags, s, k);
    VolumeAveragedKept(m, g, flags, s, 0, k, c);
    VolumeAveragedWithin(m, g, flags, s, k);
    VolumeAveragedFrame(m, f, g, flags, c);
  }

  // ---------------------------------------------------------------------
  // calculateBoundaryFlags

  /** The flag map after the flag loop: each listed cell, in order, gets its
    * existence mask. */
  function FlagsFor(flags: map<CellID, Word>, g: NeighbourQuery, s: seq<CellID>): (r: map<CellID, Word>)
    ensures R.FlagsSound(flags, g) ==> R.FlagsSound(r, g)
    ensures forall q :: 0 <= q < |s| ==> s[q] in r && r[s[q]] == ExistenceMask(g, s[q])
    ensures forall c :: c in flags && c !in s ==> c in r && r[c] == flags[c]
    decreases |s|
  {
    if |s| == 0 then flags
    else
      var front := FlagsFor(flags, g, s[..|s| - 1]);
      assert forall q :: 0 <= q < |s| - 1 ==> s[..|s| - 1][q] == s[q];
      assert forall c :: c !in s ==> c !in s[..|s| - 1];
      front[s[|s| - 1] := ExistenceMask(g, s[|s| - 1])]
  }

  /** Every listed cell has a flag. */
  predicate Flagged(flags: map<CellID, Word>, s: seq<CellID>)
  {
    forall q :: 0 <= q < |s| ==> s[q] in flags
  }

  /** A flag map that already holds the masks of the listed cells is left as
    * it is by the flag loop. */
  lemma {:induction false} FlagsForFixed(flags: map<CellID, Word>, g: NeighbourQuery, s: seq<CellID>)
    requires forall q :: 0 <= q < |s| ==> s[q] in flags && flags[s[q]] == ExistenceMask(g, s[q])
    ensures FlagsFor(flags, g, s) == flags
    decreases |s|
  {
    if |s| > 0 {
      assert forall q :: 0 <= q < |s| - 1 ==> s[..|s| - 1][q] == s[q];
      FlagsForFixed(flags, g, s[..|s| - 1]);
    }
  }

  /** calculateTransferStencil1 repeats the flag loop; the repetition
    * changes nothing. */
  lemma FlagsForIdempotent(flags: map<CellID, Word>, g: NeighbourQuery, s: seq<CellID>)
    ensures FlagsFor(FlagsFor(flags, g, s), g, s) == FlagsFor(flags, g, s)
  {
    FlagsForFixed(FlagsFor(flags, g, s), g, s);
  }

  /** Sound flags that cover the listed cells are kept by the flag loop. */
  lemma FlagsForSoundFixed(flags: map<CellID, Word>, g: NeighbourQuery, s: seq<CellID>)
    requires R.FlagsSound(flags, g) && Flagged(flags, s)
    ensures FlagsFor(flags, g, s) == flags
  {
    FlagsForFixed(flags, g, s);
  }

  // ---------------------------------------------------------------------
  // The passes in sequence

  /** r holds the cells of m with every parameter but B, edge E and the
    * face averages unchanged: what propagateFields may change besides the
    * derivatives. */
  predicate FieldsOnly(m: CellMap, r: CellMap)
  {
    && r.Keys == m.Keys
    && forall id, t :: id in m && 0 <= t < SIZE_CELLPARAMS && !(BX <= t <= EZ) && !(BXFACEX <= t < EXFACEX + 9) ==>
         r[id].cp[t] == m[id].cp[t]
  }

  /** initializeFieldPropagator after the flags and stencils: derivatives,
    * edge E, face averages. */
  function FieldsInitialised(m: CellMap, g: NeighbourQuery, flags: map<CellID, Word>, derive: DerivativesOf, fast: E.FastSpeed, s: seq<CellID>): (r: CellMap)
    requires AllKnown(m, g, s) && R.FlagsSound(flags, g) && EdgesReadable(m, g, flags, s)
    ensures FieldsOnly(m, r)
  {
    var m1 := DerivativesFirst(m, flags, derive, s, |s|);
    EdgesReadableKept(m, m1, g, flags, s);
    var m2 := EdgeFirst(m1, g, flags, fast, s, |s|);
    AllKnownKept(m, m2, g, s);
    var r := FaceAveragedFirst(m2, g, flags, s, |s|);
    FaceAveragedWithin(m2, g, flags, s, |s|);
    assert forall id, t :: id in m && 0 <= t < SIZE_CELLPARAMS && !(BX <= t <= EZ) && !(BXFACEX <= t < EXFACEX + 9) ==>
      r[id].cp[t] == m2[id].cp[t] == m1[id].cp[t];
    r
  }

  /** propagateFields after the stencils: B, derivatives, edge E, face
    * averages. */
  function FieldsAdvanced(m: CellMap, g: NeighbourQuery, flags: map<CellID, Word>, dt: real, bc: BoundaryCondB, derive: DerivativesOf, fast: E.FastSpeed, s: seq<CellID>): (r: CellMap)
    requires Ready(m, g, s) && R.FlagsSound(flags, g) && EdgesReadable(m, g, flags, s)
    ensures FieldsOnly(m, r)
  {
    var m1 := MagneticFieldPropagated(m, g, flags, dt, bc, s);
    WithinSameDensity(m, m1, BX, BZ + 1);
    EdgesReadableKept(m, m1, g, flags, s);
    var r := FieldsInitialised(m1, g, flags, derive, fast, s);
    assert forall id, t :: id in m && 0 <= t < SIZE_CELLPARAMS && !(BX <= t <= EZ) && !(BXFACEX <= t < EXFACEX + 9) ==>
      r[id].cp[t] == m1[id].cp[t];
    r
  }

  /** FieldsInitialised is the derivative, edge and face passes in turn. */
  lemma FieldsInitialisedSteps(m: CellMap, m1: CellMap, m2: CellMap, g: NeighbourQuery, flags: map<CellID, Word>, derive: DerivativesOf, fast: E.FastSpeed, s: seq<CellID>)
    requires AllKnown(m, g, s) && R.FlagsSound(flags, g) && EdgesReadable(m, g, flags, s)
    requires m1 == DerivativesFirst(m, flags, derive, s, |s|) && EdgesReadable(m1, g, flags, s)
    requires m2 == EdgeFirst(m1, g, flags, fast, s, |s|) && AllKnown(m2, g, s)
    ensures FieldsInitialised(m, g, flags, derive, fast, s) == FaceAveragedFirst(m2, g, flags, s, |s|)
  {
  }

  /** FieldsAdvanced is the B update followed by FieldsInitialised. */
  lemma FieldsAdvancedSteps(m: CellMap, m1: CellMap, g: NeighbourQuery, flags: map<CellID, Word>, dt: real, bc: BoundaryCondB, derive: DerivativesOf, fast: E.FastSpeed, s: seq<CellID>)
    requires Ready(m, g, s) && R.FlagsSound(flags, g) && EdgesReadable(m, g, flags, s)
    requires m1 == MagneticFieldPropagated(m, g, flags, dt, bc, s) && AllKnown(m1, g, s) && EdgesReadable(m1, g, flags, s)
    ensures FieldsAdvanced(m, g, flags, dt, bc, derive, fast, s) == FieldsInitialised(m1, g, flags, derive, fast, s)
  {
  }

  // ---------------------------------------------------------------------
  // One more cell: the steps the loops of the driver take

  lemma PropagatedAtIs(m: CellMap, g: NeighbourQuery, flags: map<CellID, Word>, dt: real, s: seq<CellID>, k: nat, f: CellMap)
    requires k < |s| && Ready(m, g, s) && f == PropagatedFirst(m, g, flags, dt, s, k) && Ready(f, g, s)
    ensures PropagatedAt(m, g, flags, dt, s, k) == Put(f, s[k], P.PropagatedCell(f[s[k]], AboveOf(f, g, s[k]), R.FlagOf(flags, s[k]), dt))
  {
  }

  /** The loop's step k on the cells after the first k steps. */
  lemma PropagatedNext(m: CellMap, g: NeighbourQuery, flags: map<CellID, Word>, dt: real, s: seq<CellID>, k: nat, f: CellMap)
    requires k < |s| && Ready(m, g, s) && f == PropagatedFirst(m, g, flags, dt, s, k)
    ensures Ready(f, g, s)
    ensures Put(f, s[k], P.PropagatedCell(f[s[k]], AboveOf(f, g, s[k]), R.FlagOf(flags, s[k]), dt)) == PropagatedFirst(m, g, flags, dt, s, k + 1)
  {
    ReadyKept(m, f, g, s, BX, BZ + 1);
    PropagatedUnfold(m, g, flags, dt, s, k);
    PropagatedAtIs(m, g, flags, dt, s, k, f);
  }

  lemma BoundaryNext(m: CellMap, flags: map<CellID, Word>, bc: BoundaryCondB, s: seq<CellID>, k: nat, f: CellMap)
    requires k < |s| && Stored(m, s) && f == BoundaryFirst(m, flags, bc, s, k)
    ensures s[k] in f
    ensures BoundaryCell(f, flags, bc, s[k]) == BoundaryFirst(m, flags, bc, s, k + 1)
  {
    BoundaryUnfold(m, flags, bc, s, k);
  }

  lemma DerivativesNext(m: CellMap, flags: map<CellID, Word>, derive: DerivativesOf, s: seq<CellID>, k: nat, f: CellMap)
    requires k < |s| && Stored(m, s) && f == DerivativesFirst(m, flags, derive, s, k)
    ensures s[k] in f
    ensures f[s[k] := CellData(f[s[k]].cp, derive(f, s[k], R.FlagOf(flags, s[k])))] == DerivativesFirst(m, flags, derive, s, k + 1)
  {
    DerivativesUnfold(m, flags, derive, s, k);
  }

  lemma EdgeAtIs(m: CellMap, g: NeighbourQuery, flags: map<CellID, Word>, fast: E.FastSpeed, s: seq<CellID>, k: nat, f: CellMap)
    requires k < |s| && EdgesReadable(m, g, flags, s) && f == EdgeFirst(m, g, flags, fast, s, k) && EdgesReadable(f, g, flags, s)
    ensures EdgeAt(m, g, flags, fast, s, k) == EdgeCell(f, g, flags, fast, s[k])
  {
  }

  lemma EdgeNext(m: CellMap, g: NeighbourQuery, flags: map<CellID, Word>, fast: E.FastSpeed, s: seq<CellID>, k: nat, f: CellMap)
    requires k < |s| && EdgesReadable(m, g, flags, s) && f == EdgeFirst(m, g, flags, fast, s, k)
    ensures s[k] in f && EdgesOfCellReadable(f, g, flags, s[k])
    ensures EdgeCell(f, g, flags, fast, s[k]) == EdgeFirst(m, g, flags, fast, s, k + 1)
  {
    WithinSameDensity(m, f, EX, EZ + 1);
    EdgesReadableKept(m, f, g, flags, s);
    EdgeUnfold(m, g, flags, fast, s, k);
    EdgeAtIs(m, g, flags, fast, s, k, f);
  }

  lemma FaceAveragedAtIs(m: CellMap, g: NeighbourQuery, flags: map<CellID, Word>, s: seq<CellID>, k: nat, f: CellMap)
    requires k < |s| && AllKnown(m, g, s) && R.FlagsSound(flags, g)
    requires f == FaceAveragedFirst(m, g, flags, s, k) && R.NeighbourhoodKnown(f, g, s[k])
    ensures FaceAveragedAt(m, g, flags, s, k) == Put(f, s[k], CellData(R.FaceAveraged(f, g, flags, s[k]), f[s[k]].der))
  {
  }

  lemma FaceAveragedNext(m: CellMap, g: NeighbourQuery, flags: map<CellID, Word>, s: seq<CellID>, k: nat, f: CellMap)
    requires k < |s| && AllKnown(m, g, s) && R.FlagsSound(flags, g) && f == FaceAveragedFirst(m, g, flags, s, k)
    ensures R.NeighbourhoodKnown(f, g, s[k])
    ensures Put(f, s[k], CellData(R.FaceAveraged(f, g, flags, s[k]), f[s[k]].der)) == FaceAveragedFirst(m, g, flags, s, k + 1)
  {
    AllKnownKept(m, f, g, s);
    FaceAveragedUnfold(m, g, flags, s, k);
    FaceAveragedAtIs(m, g, flags, s, k, f);
  }

  lemma VolumeAveragedAtIs(m: CellMap, g: NeighbourQuery, flags: map<CellID, Word>, s: seq<CellID>, k: nat, f: CellMap)
    requires k < |s| && AllKnown(m, g, s) && R.FlagsSound(flags, g)
    requires f == VolumeAveragedFirst(m, g, flags, s, k) && R.NeighbourhoodKnown(f, g, s[k])
    ensures VolumeAveragedAt(m, g, flags, s, k) == Put(f, s[k], CellData(R.VolumeAveraged(f, g, flags, s[k]), f[s[k]].der))
  {
  }

  lemma VolumeAveragedNext(m: CellMap, g: NeighbourQuery, flags: map<CellID, Word>, s: seq<CellID>, k: nat, f: CellMap)
    requires k < |s| && AllKnown(m, g, s) && R.FlagsSound(flags, g) && f == VolumeAveragedFirst(m, g, flags, s, k)
    ensures R.NeighbourhoodKnown(f, g, s[k])
    ensures Put(f, s[k], CellData(R.VolumeAveraged(f, g, flags, s[k]), f[s[k]].der)) == VolumeAveragedFirst(m, g, flags, s, k + 1)
  {
    AllKnownKept(m, f, g, s);
    VolumeAveragedUnfold(m, g, flags, s, k);
    VolumeAveragedAtIs(m, g, flags, s, k, f);
  }
}
