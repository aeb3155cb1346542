/** The field solver of londrillo_delzanna.cpp as the object the source keeps
  * in file-scope globals: the cells of the process, the neighbour query of
  * the grid, the existence flags of the cells, the three transfer stencils
  * and the switch that asks for the stencils to be rebuilt. Each method is
  * a loop over the local cells that updates the cells in place; its result
  * is the fold of FieldSolver that specifies the pass. */
module FieldSolverDriver {

  import opened Bits
  import opened NeighbourTopology
  import opened CellState
  import opened TransferStencils
  import opened FieldSolver
  import P = FieldPropagation
  import E = EdgeElectricField
  import R = Reconstruction

  class Solver {
    var cells: CellMap
    const g: NeighbourQuery
    var boundaryFlags: map<CellID, Word>
    var stencil1: StencilLists
    var stencil2: StencilLists
    var stencil3: StencilLists
    var recalculateStencils: bool

    /** Every stored flag word is the existence mask of its cell. */
    predicate Valid()
      reads this
    {
      R.FlagsSound(boundaryFlags, g)
    }

    /** The globals before initializeFieldPropagator: no flags and empty
      * stencils. */
    constructor (cells0: CellMap, g0: NeighbourQuery, recalculate: bool)
      ensures Valid()
      ensures cells == cells0 && g == g0 && boundaryFlags == map[]
      ensures stencil1 == stencil2 == stencil3 == StencilLists([], [])
      ensures recalculateStencils == recalculate
    {
      cells := cells0;
      g := g0;
      boundaryFlags := map[];
      stencil1 := StencilLists([], []);
      stencil2 := StencilLists([], []);
      stencil3 := StencilLists([], []);
      recalculateStencils := recalculate;
    }

    /** calculateBoundaryFlags: each listed cell, in order, gets its
      * existence mask. */
    method CalculateBoundaryFlags(local: seq<CellID>)
      requires Valid()
      modifies this`boundaryFlags
      ensures Valid()
      ensures boundaryFlags == FlagsFor(old(boundaryFlags), g, local)
    {
      var i := 0;
      while i < |local|
        invariant 0 <= i <= |local|
        invariant boundaryFlags == FlagsFor(old(boundaryFlags), g, local[..i])
        invariant Valid()
      {
        var flag := CalculateBoundaryFlag(g, local[i]);
        assert local[..i + 1][..i] == local[..i];
        boundaryFlags := boundaryFlags[local[i] := flag];
        i := i + 1;
      }
      assert local[..|local|] == local;
    }

    /** calculateTransferStencil1: the flag loop again, then the lists of
      * stencil 1. */
    method CalculateTransferStencil1(local: seq<CellID>)
      requires Valid()
      modifies this`boundaryFlags, this`stencil1
      ensures Valid()
      ensures boundaryFlags == FlagsFor(old(boundaryFlags), g, local)
      ensures stencil1 == StencilLists(Stencil1Receives(), Stencil1Sends())
    {
      CalculateBoundaryFlags(local);
      stencil1 := CalculateTransferStencil1Lists();
    }

    /** initializeFieldPropagator: the existence flags and the three
      * stencils, then the derivatives, the edge E and the face averages of
      * the local cells. */
    method InitializeFieldPropagator(local: seq<CellID>, derive: DerivativesOf, fast: E.FastSpeed)
      requires Valid() && AllKnown(cells, g, local)
      requires EdgesReadable(cells, g, FlagsFor(boundaryFlags, g, local), local)
      modifies this`cells, this`boundaryFlags, this`stencil1, this`stencil2, this`stencil3
      ensures Valid()
      ensures boundaryFlags == FlagsFor(old(boundaryFlags), g, local)
      ensures (stencil1, stencil2, stencil3) == RebuiltStencils()
      ensures cells == FieldsInitialised(old(cells), g, boundaryFlags, derive, fast, local)
    {
      ghost var flags := FlagsFor(boundaryFlags, g, local);
      ghost var m0 := cells;
      assert R.FlagsSound(flags, g) && AllKnown(m0, g, local) && EdgesReadable(m0, g, flags, local);
      CalculateBoundaryFlags(local);
      BuildStencils(local);
      FlagsForIdempotent(old(boundaryFlags), g, local);
      ComputeFields(m0, flags, local, derive, fast);
    }

    /** propagateFields: the flags and stencils rebuilt when asked for, then
      * the new B, the derivatives, the edge E and the face averages of the
      * local cells. The rebuild gives stencil 3 its 26 neighbours back. */
    method PropagateFields(dt: real, local: seq<CellID>, bc: BoundaryCondB, derive: DerivativesOf, fast: E.FastSpeed)
      requires Valid() && Ready(cells, g, local)
      requires EdgesReadable(cells, g, if recalculateStencils then FlagsFor(boundaryFlags, g, local) else boundaryFlags, local)
      modifies this`cells, this`boundaryFlags, this`stencil1, this`stencil2, this`stencil3, this`recalculateStencils
      ensures Valid() && !recalculateStencils
      ensures old(recalculateStencils) ==>
        (boundaryFlags == FlagsFor(old(boundaryFlags), g, local) && (stencil1, stencil2, stencil3) == RebuiltStencils())
      ensures !old(recalculateStencils) ==>
        (boundaryFlags == old(boundaryFlags) && (stencil1, stencil2, stencil3) == old((stencil1, stencil2, stencil3)))
      ensures cells == FieldsAdvanced(old(cells), g, boundaryFlags, dt, bc, derive, fast, local)
    {
      if recalculateStencils {
        BuildStencils(local);
        recalculateStencils := false;
      }
      ghost var m0 := cells;
      PropagateMagneticFieldSimple(dt, local, bc);
      WithinSameDensity(m0, cells, BX, BZ + 1);
      EdgesReadableKept(m0, cells, g, boundaryFlags, local);
      ReadyKept(m0, cells, g, local, BX, BZ + 1);
      FieldsAdvancedSteps(m0, cells, g, boundaryFlags, dt, bc, derive, fast, local);
      ComputeFields(cells, boundaryFlags, local, derive, fast);
    }

    /** calculateTransferStencil1, 2 and 3 in turn; the first repeats the
      * flag loop. */
    method BuildStencils(local: seq<CellID>)
      requires Valid()
      modifies this`boundaryFlags, this`stencil1, this`stencil2, this`stencil3
      ensures Valid()
      ensures boundaryFlags == FlagsFor(old(boundaryFlags), g, local)
      ensures (stencil1, stencil2, stencil3) == RebuiltStencils()
    {
      CalculateTransferStencil1(local);
      stencil2 := Stencil2Lists();
      stencil3 := CalculateTransferStencil3Lists();
    }

    /** The passes both drivers end with: calculateDerivativesSimple,
      * calculateUpwindedElectricFieldSimple and calculateFaceAveragedFields. */
    method ComputeFields(ghost m0: CellMap, ghost flags: map<CellID, Word>, local: seq<CellID>, derive: DerivativesOf, fast: E.FastSpeed)
      requires cells == m0
      requires boundaryFlags == flags
      requires R.FlagsSound(flags, g)
      requires AllKnown(m0, g, local)
      requires EdgesReadable(m0, g, flags, local)
      modifies this`cells
      ensures cells == FieldsInitialised(m0, g, flags, derive, fast, local)
    {
      CalculateDerivativesSimple(local, derive);
      ghost var m1 := cells;
      EdgesReadableKept(m0, m1, g, boundaryFlags, local);
      CalculateUpwindedElectricFieldSimple(local, fast);
      ghost var m2 := cells;
      AllKnownKept(m0, m2, g, local);
      FieldsInitialisedSteps(m0, m1, m2, g, boundaryFlags, derive, fast, local);
      CalculateFaceAveragedFields(local);
    }

    /** propagateMagneticFieldSimple: the update of every listed cell, then
      * the boundary values of every listed cell whose gates fail. */
    method PropagateMagneticFieldSimple(dt: real, local: seq<CellID>, bc: BoundaryCondB)
      requires Ready(cells, g, local)
      modifies this`cells
      ensures cells == MagneticFieldPropagated(old(cells), g, boundaryFlags, dt, bc, local)
    {
      ghost var m0 := cells;
      PropagateCells(dt, local);
      ReadyKept(m0, cells, g, local, BX, BZ + 1);
      ReadyStored(cells, g, local);
      SetBoundaryValues(local, bc);
    }

    /** The first loop: propagateMagneticField on every listed cell. */
    method PropagateCells(dt: real, local: seq<CellID>)
      requires Ready(cells, g, local)
      modifies this`cells
      ensures cells == PropagatedFirst(old(cells), g, boundaryFlags, dt, local, |local|)
    {
      ghost var m0 := cells;
      var i := 0;
      while i < |local|
        invariant 0 <= i <= |local|
        invariant cells == PropagatedFirst(m0, g, boundaryFlags, dt, local, i)
      {
        PropagateStep(m0, dt, local, i);
        i := i + 1;
      }
    }

    /** propagateMagneticField on local[i], reading the cells as the earlier
      * steps left them. */
    method PropagateStep(ghost m0: CellMap, dt: real, local: seq<CellID>, i: nat)
      requires i < |local| && Ready(m0, g, local)
      requires cells == PropagatedFirst(m0, g, boundaryFlags, dt, local, i)
      modifies this`cells
      ensures cells == PropagatedFirst(m0, g, boundaryFlags, dt, local, i + 1)
    {
      PropagatedNext(m0, g, boundaryFlags, dt, local, i, cells);
      var c := local[i];
      cells := Put(cells, c, P.PropagatedCell(cells[c], AboveOf(cells, g, c), R.FlagOf(boundaryFlags, c), dt));
    }

    /** The second loop: the boundary values of every listed cell. */
    method SetBoundaryValues(local: seq<CellID>, bc: BoundaryCondB)
      requires Stored(cells, local)
      modifies this`cells
      ensures cells == BoundaryFirst(old(cells), boundaryFlags, bc, local, |local|)
    {
      ghost var m0 := cells;
      var i := 0;
      while i < |local|
        invariant 0 <= i <= |local|
        invariant cells == BoundaryFirst(m0, boundaryFlags, bc, local, i)
      {
        BoundaryNext(m0, boundaryFlags, bc, local, i, cells);
        BoundaryStep(local[i], bc);
        i := i + 1;
      }
    }

    /** The boundary step of one cell: B_x, B_y, B_z in turn. */
    method BoundaryStep(c: CellID, bc: BoundaryCondB)
      requires c in cells
      modifies this`cells
      ensures cells == BoundaryCell(old(cells), boundaryFlags, bc, c)
    {
      BoundaryAxisStep(c, bc, 0);
      BoundaryAxisStep(c, bc, 1);
      BoundaryAxisStep(c, bc, 2);
    }

    /** B_a of one cell replaced by its boundary value when its
      * PROPAGATE_Ba gate fails. */
    method BoundaryAxisStep(c: CellID, bc: BoundaryCondB, a: Axis)
      requires c in cells
      modifies this`cells
      ensures cells == BoundaryAxis(old(cells), boundaryFlags, bc, c, a)
    {
      var existing := R.FlagOf(boundaryFlags, c);
      if !P.Propagates(existing, a) {
        cells := cells[c := CellData(cells[c].cp[BSlot(a) := bc(a, cells, c, existing)], cells[c].der)];
      }
    }

    /** calculateDerivativesSimple: the derivatives of every listed cell. */
    method CalculateDerivativesSimple(local: seq<CellID>, derive: DerivativesOf)
      requires Stored(cells, local)
      modifies this`cells
      ensures cells == DerivativesFirst(old(cells), boundaryFlags, derive, local, |local|)
    {
      ghost var m0 := cells;
      var i := 0;
      while i < |local|
        invariant 0 <= i <= |local|
        invariant cells == DerivativesFirst(m0, boundaryFlags, derive, local, i)
      {
        DerivativesNext(m0, boundaryFlags, derive, local, i, cells);
        var c := local[i];
        cells := cells[c := CellData(cells[c].cp, derive(cells, c, R.FlagOf(boundaryFlags, c)))];
        i := i + 1;
      }
    }

    /** calculateUpwindedElectricFieldSimple: the edge E of every listed
      * cell whose CALCULATE_E gate holds. */
    method CalculateUpwindedElectricFieldSimple(local: seq<CellID>, fast: E.FastSpeed)
      requires EdgesReadable(cells, g, boundaryFlags, local)
      modifies this`cells
      ensures cells == EdgeFirst(old(cells), g, boundaryFlags, fast, local, |local|)
    {
      ghost var m0 := cells;
      var i := 0;
      while i < |local|
        invariant 0 <= i <= |local|
        invariant cells == EdgeFirst(m0, g, boundaryFlags, fast, local, i)
      {
        EdgeNext(m0, g, boundaryFlags, fast, local, i, cells);
        EdgeStep(local[i], fast);
        i := i + 1;
      }
    }

    /** The edge functions of one cell, x then y then z, each run only when
      * its gate holds. */
    method EdgeStep(c: CellID, fast: E.FastSpeed)
      requires c in cells && EdgesOfCellReadable(cells, g, boundaryFlags, c)
      modifies this`cells
      ensures cells == EdgeCell(old(cells), g, boundaryFlags, fast, c)
    {
      ghost var m0 := cells;
      EdgeAxisStep(c, fast, 0);
      ghost var m1 := cells;
      EdgesOfCellReadableKept(m0, m1, g, boundaryFlags, c);
      EdgeAxisStep(c, fast, 1);
      EdgesOfCellReadableKept(m1, cells, g, boundaryFlags, c);
      EdgeAxisStep(c, fast, 2);
    }

    /** The edge function of axis e on one cell, run when its gate holds:
      * EdgeAxis is that gated write. */
    method EdgeAxisStep(c: CellID, fast: E.FastSpeed, e: Axis)
      requires c in cells && EdgesOfCellReadable(cells, g, boundaryFlags, c)
      modifies this`cells
      ensures cells == EdgeAxis(old(cells), g, boundaryFlags, fast, c, e)
    {
      cells := EdgeAxis(cells, g, boundaryFlags, fast, c, e);
    }

    /** calculateFaceAveragedFields: the face averages of every listed
      * cell. */
    method CalculateFaceAveragedFields(local: seq<CellID>)
      requires Valid() && AllKnown(cells, g, local)
      modifies this`cells
      ensures cells == FaceAveragedFirst(old(cells), g, boundaryFlags, local, |local|)
    {
      ghost var m0 := cells;
      var i := 0;
      while i < |local|
        invariant 0 <= i <= |local|
        invariant cells == FaceAveragedFirst(m0, g, boundaryFlags, local, i)
      {
        FaceAveragedNext(m0, g, boundaryFlags, local, i, cells);
        var c := local[i];
        cells := Put(cells, c, CellData(R.FaceAveraged(cells, g, boundaryFlags, c), cells[c].der));
        i := i + 1;
      }
    }

    /** calculateVolumeAveragedFields: the volume averages of every listed
      * cell. */
    method CalculateVolumeAveragedFields(local: seq<CellID>)
      requires Valid() && AllKnown(cells, g, local)
      modifies this`cells
      ensures cells == VolumeAveragedFirst(old(cells), g, boundaryFlags, local, |local|)
    {
      ghost var m0 := cells;
      var i := 0;
      while i < |local|
        invariant 0 <= i <= |local|
        invariant cells == VolumeAveragedFirst(m0, g, boundaryFlags, local, i)
      {
        VolumeAveragedNext(m0, g, boundaryFlags, local, i, cells);
        var c := local[i];
        cells := Put(cells, c, CellData(R.VolumeAveraged(cells, g, boundaryFlags, c), cells[c].der));
        i := i + 1;
      }
    }
  }
}
