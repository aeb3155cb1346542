/** The Vlasov mover's driver on the ParGrid mesh: the 5x5x5 neighbour
  * type IDs computed in an unsigned char, the six-slot face-neighbour
  * lookup findNeighbours, and the loops that hand each stored cell (and,
  * for the translation stages, its face neighbours) to a kernel.
  *
  * The mesh is read-only here and is a value: its neighbour query, the
  * sentinel it returns for a missing neighbour, the cells it stores and
  * its three cell lists. A pointer to a cell is the cell's ID or Null. The
  * mover's globals (the cell list, the six neighbour pointers and the
  * current cell pointer) are the fields of one object. */
module ParGridMain {

  import opened NeighbourTopology
  import opened CellState
  import VM = VlasovMover

  /** An unsigned char. */
  type byte = x: int | 0 <= x < 256

  /** calcNbrTypeID: k*25+j*5+i, evaluated in int and stored in an
    * unsigned char, so reduced modulo 256. */
  function CalcNbrTypeID(i: byte, j: byte, k: byte): byte
  {
    var v := k * 25 + j * 5 + i;
    if v < 256 then v else v % 256
  }

  /** Inside the 5x5x5 cube nothing wraps: calcNbrTypeID is the type ID of
    * the field solver's numbering. */
  lemma CalcNbrTypeIDInCube(i: byte, j: byte, k: byte)
    requires i < 5 && j < 5 && k < 5
    ensures CalcNbrTypeID(i, j, k) == NbrTypeID(i, j, k)
  {
  }

  /** Inside the cube a type ID determines its position. */
  lemma CalcNbrTypeIDDeterminesPosition(i: byte, j: byte, k: byte, i': byte, j': byte, k': byte)
    requires i < 5 && j < 5 && k < 5 && i' < 5 && j' < 5 && k' < 5
    requires CalcNbrTypeID(i, j, k) == CalcNbrTypeID(i', j', k')
    ensures i == i' && j == j' && k == k'
  {
    CalcNbrTypeIDInCube(i, j, k);
    CalcNbrTypeIDInCube(i', j', k');
    NbrTypeIDBijective(i, j, k, 0);
    NbrTypeIDBijective(i', j', k', 0);
  }

  /** Inside the cube distinct positions get distinct type IDs, and the
    * centre (2,2,2), the cell itself, is 62. */
  lemma CalcNbrTypeIDInjective(i: byte, j: byte, k: byte, i': byte, j': byte, k': byte)
    requires i < 5 && j < 5 && k < 5 && i' < 5 && j' < 5 && k' < 5
    ensures CalcNbrTypeID(i, j, k) == CalcNbrTypeID(i', j', k') <==> i == i' && j == j' && k == k'
    ensures CalcNbrTypeID(2, 2, 2) == 62
  {
    CalcNbrTypeIDInCube(2, 2, 2);
    if CalcNbrTypeID(i, j, k) == CalcNbrTypeID(i', j', k') {
      CalcNbrTypeIDDeterminesPosition(i, j, k, i', j', k');
    }
  }

  /** Outside the cube the unsigned char wraps, and positions collide:
    * (6,0,10) gets the type ID of (0,0,0). */
  lemma CalcNbrTypeIDWraps()
    ensures CalcNbrTypeID(6, 0, 10) == 0 && CalcNbrTypeID(0, 0, 0) == 0
  {
  }

  // ---------------------------------------------------------------------
  // The mesh

  /** A pointer to a cell of the mesh: the cell's ID, or NULL. */
  datatype Ptr = Null | Cell(id: CellID)

  /** The parts of the ParGrid mesh the mover reads: the neighbour query,
    * the sentinel numeric_limits<ID::type>::max() it returns for a missing
    * neighbour, the cells whose data the process holds, and the lists
    * getCells, getInnerCells and getBoundaryCells return. */
  datatype Mesh = Mesh(getNeighbour: (CellID, byte) -> CellID, idMax: CellID, stored: set<CellID>,
                       all: seq<CellID>, inner: seq<CellID>, boundary: seq<CellID>)

  /** mpiGrid[id]: the cell's data, or NULL when the process does not hold it. */
  function At(mesh: Mesh, id: CellID): (p: Ptr)
    ensures p != Null <==> id in mesh.stored
    ensures p != Null ==> p.id == id
  {
    if id in mesh.stored then Cell(id) else Null
  }

  /** Whether the process holds a cell's data. */
  function Stored(mesh: Mesh): CellID -> bool
  {
    id => id in mesh.stored
  }

  // ---------------------------------------------------------------------
  // Face neighbours

  /** The position of the 5x5x5 cube queried for slot d of nbrPtr: slots
    * 0..5 are the -x, +x, -y, +y, -z and +z neighbours around the centre. */
  function FacePosition(d: nat): (p: (byte, byte, byte))
    requires d < 6
    ensures p.0 < 5 && p.1 < 5 && p.2 < 5
  {
    if d == 0 then (1, 2, 2) else if d == 1 then (3, 2, 2)
    else if d == 2 then (2, 1, 2) else if d == 3 then (2, 3, 2)
    else if d == 4 then (2, 2, 1) else (2, 2, 3)
  }

  /** The type ID queried for slot d. */
  function FaceTypeID(d: nat): (t: byte)
    requires d < 6
    ensures t == NbrTypeID(FacePosition(d).0, FacePosition(d).1, FacePosition(d).2)
  {
    var p := FacePosition(d);
    CalcNbrTypeIDInCube(p.0, p.1, p.2);
    CalcNbrTypeID(p.0, p.1, p.2)
  }

  /** The six queries of findNeighbours, written as it writes them. */
  lemma FaceTypeIDsAsQueried()
    ensures FaceTypeID(0) == CalcNbrTypeID(2 - 1, 2, 2) && FaceTypeID(1) == CalcNbrTypeID(2 + 1, 2, 2)
    ensures FaceTypeID(2) == CalcNbrTypeID(2, 2 - 1, 2) && FaceTypeID(3) == CalcNbrTypeID(2, 2 + 1, 2)
    ensures FaceTypeID(4) == CalcNbrTypeID(2, 2, 2 - 1) && FaceTypeID(5) == CalcNbrTypeID(2, 2, 2 + 1)
  {
  }

  /** Slot d queries the neighbour one step along axis d/2, backwards for
    * even d and forwards for odd d: the field solver's offset on that
    * axis. The six slots query six distinct type IDs, none of them the
    * cell itself, and opposite slots query reflected type IDs. */
  lemma FaceSlots(d: nat, e: nat)
    requires d < 6 && e < 6
    ensures var o := AxisOffset(d / 2, if d % 2 == 0 then -1 else 1);
      FaceTypeID(d) == NbrTypeID(2 + o.0, 2 + o.1, 2 + o.2)
    ensures FaceTypeID(d) == FaceTypeID(e) <==> d == e
    ensures FaceTypeID(d) != 62
    ensures d % 2 == 0 ==> FaceTypeID(d) + FaceTypeID(d + 1) == 124
  {
  }

  /** The face neighbour the mesh reports for slot d, as a pointer: NULL
    * when the query returns the sentinel. */
  function FaceNeighbour(mesh: Mesh, cell: CellID, d: nat): Ptr
    requires d < 6
  {
    var nbrID := mesh.getNeighbour(cell, FaceTypeID(d));
    if nbrID != mesh.idMax then At(mesh, nbrID) else Null
  }

  /** A slot points at a cell iff the mesh returned a neighbour other than
    * the sentinel (and the process holds it), and then at that neighbour. */
  lemma FaceNeighbourNonNull(mesh: Mesh, cell: CellID, d: nat)
    requires d < 6
    ensures var nbrID := mesh.getNeighbour(cell, FaceTypeID(d));
      (FaceNeighbour(mesh, cell, d) != Null <==> nbrID != mesh.idMax && nbrID in mesh.stored) &&
      (FaceNeighbour(mesh, cell, d) != Null ==> FaceNeighbour(mesh, cell, d).id == nbrID)
  {
  }

  /** The six slots of a cell. */
  function FaceNeighbours(mesh: Mesh, cell: CellID): (r: seq<Ptr>)
    ensures |r| == 6 && forall d :: 0 <= d < 6 ==> r[d] == FaceNeighbour(mesh, cell, d)
  {
    seq(6, d requires 0 <= d < 6 => FaceNeighbour(mesh, cell, d))
  }

  /** findNeighbours: reset all six slots to NULL, then fill each from its
    * query. It reports success on every input. */
  method FindNeighbours(nbrPtr: array<Ptr>, mesh: Mesh, cellID: CellID) returns (ok: bool)
    requires nbrPtr.Length == 6
    modifies nbrPtr
    ensures ok
    ensures forall d :: 0 <= d < 6 ==> nbrPtr[d] == FaceNeighbour(mesh, cellID, d)
  {
    FaceTypeIDsAsQueried();
    for i := 0 to 6
      invariant forall p :: 0 <= p < i ==> nbrPtr[p] == Null
    {
      nbrPtr[i] := Null;
    }
    var nbrID := mesh.getNeighbour(cellID, CalcNbrTypeID(2 - 1, 2, 2));
    if nbrID != mesh.idMax { nbrPtr[0] := At(mesh, nbrID); }
    nbrID := mesh.getNeighbour(cellID, CalcNbrTypeID(2 + 1, 2, 2));
    if nbrID != mesh.idMax { nbrPtr[1] := At(mesh, nbrID); }
    nbrID := mesh.getNeighbour(cellID, CalcNbrTypeID(2, 2 - 1, 2));
    if nbrID != mesh.idMax { nbrPtr[2] := At(mesh, nbrID); }
    nbrID := mesh.getNeighbour(cellID, CalcNbrTypeID(2, 2 + 1, 2));
    if nbrID != mesh.idMax { nbrPtr[3] := At(mesh, nbrID); }
    nbrID := mesh.getNeighbour(cellID, CalcNbrTypeID(2, 2, 2 - 1));
    if nbrID != mesh.idMax { nbrPtr[4] := At(mesh, nbrID); }
    nbrID := mesh.getNeighbour(cellID, CalcNbrTypeID(2, 2, 2 + 1));
    if nbrID != mesh.idMax { nbrPtr[5] := At(mesh, nbrID); }
    ok := true;
  }

  // ---------------------------------------------------------------------
  // Driver loops

  /** The kernels the driver hands cells to. */
  datatype Kernel = Acceleration | VelocityMoments | Translation1 | Translation2 | Translation3

  /** One kernel invocation: the kernel, the cell and the neighbour
    * pointers it receives (none for acceleration and moments). */
  datatype Call = Call(kernel: Kernel, cell: CellID, nbrs: seq<Ptr>)

  predicate IsTranslation(kernel: Kernel)
  {
    kernel == Translation1 || kernel == Translation2 || kernel == Translation3
  }

  /** What a kernel receives besides the cell. */
  function KernelNbrs(mesh: Mesh, kernel: Kernel, cell: CellID): seq<Ptr>
  {
    if IsTranslation(kernel) then FaceNeighbours(mesh, cell) else []
  }

  /** The calls a pass of kernel over ids makes: one per cell the process
    * holds, in list order. */
  function PassCalls(mesh: Mesh, kernel: Kernel, ids: seq<CellID>): seq<Call>
  {
    if |ids| == 0 then []
    else PassCalls(mesh, kernel, ids[..|ids| - 1])
         + (if ids[|ids| - 1] in mesh.stored then [Call(kernel, ids[|ids| - 1], KernelNbrs(mesh, kernel, ids[|ids| - 1]))] else [])
  }

  /** A pass calls the kernel on exactly the held cells of its list, in
    * order, each with its face neighbours when the kernel translates; so a
    * NULL cell pointer is skipped and nothing else is. */
  lemma {:induction false} PassCallsHeldCells(mesh: Mesh, kernel: Kernel, ids: seq<CellID>)
    ensures var r := PassCalls(mesh, kernel, ids);
      var f := VM.Filtered(ids, Stored(mesh));
      |r| == |f| &&
      forall n :: 0 <= n < |r| ==> r[n] == Call(kernel, f[n], KernelNbrs(mesh, kernel, f[n]))
  {
    if |ids| > 0 {
      PassCallsHeldCells(mesh, kernel, ids[..|ids| - 1]);
    }
  }

  /** Every held cell of the list, and no other cell, gets a call. */
  lemma PassCallsMembers(mesh: Mesh, kernel: Kernel, ids: seq<CellID>, id: CellID)
    ensures (exists n :: 0 <= n < |PassCalls(mesh, kernel, ids)| && PassCalls(mesh, kernel, ids)[n].cell == id)
        <==> id in ids && id in mesh.stored
  {
    var r := PassCalls(mesh, kernel, ids);
    var f := VM.Filtered(ids, Stored(mesh));
    PassCallsHeldCells(mesh, kernel, ids);
    VM.FilteredMembers(ids, Stored(mesh));
    if id in ids && id in mesh.stored {
      assert id in f;
      var n :| 0 <= n < |f| && f[n] == id;
      assert r[n].cell == id;
    }
    if exists n :: 0 <= n < |r| && r[n].cell == id {
      var n :| 0 <= n < |r| && r[n].cell == id;
      assert f[n] == id;
    }
  }

  /** The mover's globals: the current cell list, the six neighbour
    * pointers and the current cell pointer. */
  class MoverState {
    var cells: seq<CellID>
    const nbrPtrs: array<Ptr>
    var cellPtr: Ptr

    /** The globals as the program starts: six NULL neighbour pointers. */
    constructor ()
      ensures cells == [] && cellPtr == Null
      ensures nbrPtrs.Length == 6 && forall d :: 0 <= d < 6 ==> nbrPtrs[d] == Null
      ensures fresh(nbrPtrs)
    {
      cells := [];
      nbrPtrs := new Ptr[6](_ => Null);
      cellPtr := Null;
    }

    /** The loop of calculateVelocityMoments and calculateAcceleration:
      * every cell of the list whose pointer is not NULL goes to the kernel. */
    method RunKernel(mesh: Mesh, kernel: Kernel) returns (calls: seq<Call>)
      requires !IsTranslation(kernel)
      modifies this
      ensures cells == old(cells) && calls == PassCalls(mesh, kernel, cells)
    {
      calls := [];
      for c := 0 to |cells|
        invariant cells == old(cells)
        invariant calls == PassCalls(mesh, kernel, cells[..c])
      {
        cellPtr := At(mesh, cells[c]);
        if cellPtr != Null {
          calls := calls + [Call(kernel, cellPtr.id, [])];
        }
        assert cells[..c + 1][..c] == cells[..c];
      }
      assert cells[..|cells|] == cells;
    }

    /** calculateVelocityMoments: the moments of every held cell. */
    method CalculateVelocityMoments(mesh: Mesh) returns (calls: seq<Call>)
      modifies this
      ensures cells == mesh.all && calls == PassCalls(mesh, VelocityMoments, mesh.all)
    {
      cells := mesh.all;
      calls := RunKernel(mesh, VelocityMoments);
    }

    /** calculateAcceleration: the acceleration of every held cell, inner
      * and boundary alike. */
    method CalculateAcceleration(mesh: Mesh) returns (calls: seq<Call>)
      modifies this
      ensures cells == mesh.all && calls == PassCalls(mesh, Acceleration, mesh.all)
    {
      cells := mesh.all;
      calls := RunKernel(mesh, Acceleration);
    }

    /** One translation loop over the current list: find the cell's
      * neighbours, then hand the cell and its six pointers to the kernel
      * when its pointer is not NULL. The "Failed to find neighbours"
      * branch is never taken. */
    method Translate(mesh: Mesh, kernel: Kernel) returns (calls: seq<Call>)
      requires IsTranslation(kernel) && nbrPtrs.Length == 6
      modifies this, nbrPtrs
      ensures cells == old(cells) && calls == PassCalls(mesh, kernel, cells)
    {
      calls := [];
      for c := 0 to |cells|
        invariant cells == old(cells)
        invariant calls == PassCalls(mesh, kernel, cells[..c])
      {
        cellPtr := At(mesh, cells[c]);
        var ok := FindNeighbours(nbrPtrs, mesh, cells[c]);
        if !ok {
          assert false;
        }
        assert nbrPtrs[..] == FaceNeighbours(mesh, cells[c]);
        if cellPtr != Null {
          calls := calls + [Call(kernel, cellPtr.id, nbrPtrs[..])];
        }
        assert cells[..c + 1][..c] == cells[..c];
      }
      assert cells[..|cells|] == cells;
    }

    /** calculateSpatialDerivatives, calculateSpatialFluxes and
      * calculateSpatialPropagation (kernels 1, 2 and 3): the inner cells
      * first, then the boundary cells once the neighbour data has arrived. */
    method SpatialStage(mesh: Mesh, kernel: Kernel) returns (calls: seq<Call>)
      requires IsTranslation(kernel) && nbrPtrs.Length == 6
      modifies this, nbrPtrs
      ensures cells == mesh.boundary
      ensures calls == PassCalls(mesh, kernel, mesh.inner) + PassCalls(mesh, kernel, mesh.boundary)
    {
      cells := mesh.inner;
      var innerCalls := Translate(mesh, kernel);
      cells := mesh.boundary;
      var boundaryCalls := Translate(mesh, kernel);
      calls := innerCalls + boundaryCalls;
    }
  }
}
