/** The per-cell state the solvers read and write: the cellParams array of
  * a spatial cell and its array of spatial derivatives.
  *
  * The header that fixes the slot numbers is not part of this model. The
  * layout below keeps what the modelled code relies on: B, E and the
  * momentum densities each occupy three consecutive slots in x, y, z order,
  * and the nine face-averaged B slots and the nine face-averaged E slots are
  * each contiguous (BXFACEX+i, EXFACEX+i for i < 9). */
module CellState {

  import opened NeighbourTopology

  /** A coordinate axis: 0 = x, 1 = y, 2 = z. */
  type Axis = a: nat | a < 3

  /** The axis after a in the cyclic order x, y, z. */
  function Next(a: Axis): (n: Axis)
    ensures n != a
  {
    if a == 2 then 0 else a + 1
  }

  // ---------------------------------------------------------------------
  // cellParams slots

  const BX: nat := 0
  const BY: nat := 1
  const BZ: nat := 2
  const EX: nat := 3
  const EY: nat := 4
  const EZ: nat := 5
  const RHO: nat := 6
  const RHOVX: nat := 7
  const RHOVY: nat := 8
  const RHOVZ: nat := 9
  const DX: nat := 10
  const DY: nat := 11
  const DZ: nat := 12
  const XCRD: nat := 13
  const YCRD: nat := 14
  const ZCRD: nat := 15
  /** BXFACEX, BYFACEX, BZFACEX, BXFACEY, ..., BZFACEZ: slots 16..24. */
  const BXFACEX: nat := 16
  /** EXFACEX, EYFACEX, EZFACEX, EXFACEY, ..., EZFACEZ: slots 25..33. */
  const EXFACEX: nat := 25
  const BXVOL: nat := 34
  const BYVOL: nat := 35
  const BZVOL: nat := 36
  const EXVOL: nat := 37
  const EYVOL: nat := 38
  const EZVOL: nat := 39
  const PERBX: nat := 40
  const PERBY: nat := 41
  const PERBZ: nat := 42
  const PERBX_DT2: nat := 43
  const RHOLOSSADJUST: nat := 46
  const RHOLOSSVELBOUNDARY: nat := 47
  const P_11: nat := 48
  const P_22: nat := 49
  const P_33: nat := 50
  const RHO_R: nat := 51
  const RHO_V: nat := 58
  const MAXRDT: nat := 65
  const MAXVDT: nat := 66
  const ACCSUBCYCLES: nat := 67
  const SIZE_CELLPARAMS: nat := 68

  /** The seven moment slots RHO, RHOVX, RHOVY, RHOVZ, P_11, P_22, P_33, and
    * their copies after translation (_R, from RHO_R) and after acceleration
    * (_V, from RHO_V), each in that order. */
  function MomentSlot(base: nat, m: nat): (s: nat)
    requires m < 7
    requires base == RHO || base == RHO_R || base == RHO_V
    ensures s < SIZE_CELLPARAMS
  {
    if base == RHO then (if m < 4 then RHO + m else P_11 + (m - 4)) else base + m
  }

  /** B, E and momentum slots of one axis. */
  function BSlot(a: Axis): nat { BX + a }
  function ESlot(a: Axis): nat { EX + a }
  function MomentumSlot(a: Axis): nat { RHOVX + a }
  function SizeSlot(a: Axis): nat { DX + a }

  /** A cell's parameter array. */
  type Params = p: seq<real> | |p| == SIZE_CELLPARAMS witness seq(SIZE_CELLPARAMS, _ => 0.0)

  // ---------------------------------------------------------------------
  // derivative slots: per direction d, drho/dd, the two B components other
  // than d, then the three velocity components

  const SIZE_DERIVATIVES: nat := 18

  /** Slot of d(rho)/d(axis d). */
  function DRhoSlot(d: Axis): (s: nat)
    ensures s < SIZE_DERIVATIVES
  {
    6 * d
  }

  /** Slot of d(B_c)/d(axis d); the source keeps no dBx/dx, dBy/dy or dBz/dz. */
  function DBSlot(c: Axis, d: Axis): (s: nat)
    requires c != d
    ensures s < SIZE_DERIVATIVES
  {
    6 * d + 1 + (if c < d then c else c - 1)
  }

  /** Slot of d(V_c)/d(axis d). */
  function DVSlot(c: Axis, d: Axis): (s: nat)
    ensures s < SIZE_DERIVATIVES
  {
    6 * d + 3 + c
  }

  /** A cell's derivative array. */
  type Derivs = d: seq<real> | |d| == SIZE_DERIVATIVES witness seq(SIZE_DERIVATIVES, _ => 0.0)

  /** The data the field solver keeps for one cell. */
  datatype CellData = CellData(cp: Params, der: Derivs)

  /** The zero-filled arrays the source substitutes for a missing cell. */
  function ZeroCell(): (x: CellData)
    ensures forall s :: 0 <= s < SIZE_CELLPARAMS ==> x.cp[s] == 0.0
    ensures forall s :: 0 <= s < SIZE_DERIVATIVES ==> x.der[s] == 0.0
  {
    CellData(seq(SIZE_CELLPARAMS, _ => 0.0), seq(SIZE_DERIVATIVES, _ => 0.0))
  }

  /** The cells a process stores, local and remote, by ID. */
  type CellMap = map<CellID, CellData>

  /** The neighbour at offset (i,j,k), -1 <= i,j,k <= 1, as the mesh reports it. */
  function Nbr(g: NeighbourQuery, cell: CellID, i: int, j: int, k: int): CellID
    requires -1 <= i <= 1 && -1 <= j <= 1 && -1 <= k <= 1
  {
    g(cell, NbrTypeID(2 + i, 2 + j, 2 + k))
  }

  /** The unit offset along one axis, scaled by s. */
  function AxisOffset(a: Axis, s: int): (int, int, int)
  {
    if a == 0 then (s, 0, 0) else if a == 1 then (0, s, 0) else (0, 0, s)
  }

  /** The neighbour at a small offset. */
  function NbrAt(g: NeighbourQuery, cell: CellID, o: (int, int, int)): CellID
    requires -1 <= o.0 <= 1 && -1 <= o.1 <= 1 && -1 <= o.2 <= 1
  {
    Nbr(g, cell, o.0, o.1, o.2)
  }

  /** A cell's data, or the zero-filled arrays when the ID is the sentinel. */
  function ReadOrZero(cells: CellMap, id: CellID): (x: CellData)
    requires id == INVALID_CELLID || id in cells
    ensures id == INVALID_CELLID ==> x == ZeroCell()
  {
    if id == INVALID_CELLID then ZeroCell() else cells[id]
  }

  /** Each local cell is listed once, as the grid's cell queries list them. */
  predicate Distinct(s: seq<CellID>)
  {
    forall p, q :: 0 <= p < q < |s| ==> s[p] != s[q]
  }

  // ---------------------------------------------------------------------
  // The dccrg spatial cell seen by the system-boundary and Vlasov code

  /** The first two values of sysboundarytype; the enumeration's header is
    * not part of this model, and a boundary condition's own index is one of
    * the later values. */
  const DO_NOT_COMPUTE: nat := 0
  const NOT_SYSBOUNDARY: nat := 1

  /** A spatial cell: its system-boundary type and layer, its parameter
    * array, and the number of velocity blocks it holds per population. The
    * velocity blocks themselves are not part of this model. */
  datatype SpatialCell = SpatialCell(
    sysBoundaryFlag: nat,
    sysBoundaryLayer: nat,
    parameters: Params,
    blocks: seq<nat>)

  /** The grid of one process: every cell it stores, by ID, and the list of
    * its local cells in the order the grid's get_cells reports them. */
  class SpatialGrid {
    var cells: map<CellID, SpatialCell>
    const local: seq<CellID>

    /** Every local cell is stored and listed once. */
    ghost predicate Valid()
      reads this
    {
      Distinct(local) && forall q :: 0 <= q < |local| ==> local[q] in cells
    }

    constructor (cells: map<CellID, SpatialCell>, local: seq<CellID>)
      requires Distinct(local) && forall q :: 0 <= q < |local| ==> local[q] in cells
      ensures Valid() && this.cells == cells && this.local == local
    {
      this.cells := cells;
      this.local := local;
    }
  }

  /** m is m0 with f applied to each listed cell, all else as it was. */
  ghost predicate EachLocal(m0: map<CellID, SpatialCell>, m: map<CellID, SpatialCell>,
                            local: seq<CellID>, f: SpatialCell -> SpatialCell)
    requires forall q :: 0 <= q < |local| ==> local[q] in m0
  {
    m.Keys == m0.Keys &&
    (forall q :: 0 <= q < |local| ==> m[local[q]] == f(m0[local[q]])) &&
    (forall id :: id in m0 && id !in local ==> m[id] == m0[id])
  }

  /** The walk over the local cells has applied f to the first q of them. */
  ghost predicate DoneUpTo(m0: map<CellID, SpatialCell>, m: map<CellID, SpatialCell>,
                           local: seq<CellID>, f: SpatialCell -> SpatialCell, q: nat)
    requires q <= |local| && forall p :: 0 <= p < |local| ==> local[p] in m0
  {
    m.Keys == m0.Keys &&
    (forall p :: 0 <= p < q ==> m[local[p]] == f(m0[local[p]])) &&
    (forall p :: q <= p < |local| ==> m[local[p]] == m0[local[p]]) &&
    (forall id :: id in m0 && id !in local ==> m[id] == m0[id])
  }

  /** Writing f of the next cell extends the walk by one cell. */
  lemma LocalStep(m0: map<CellID, SpatialCell>, m: map<CellID, SpatialCell>,
                  local: seq<CellID>, f: SpatialCell -> SpatialCell, q: nat, x: SpatialCell)
    requires Distinct(local) && q < |local| && forall p :: 0 <= p < |local| ==> local[p] in m0
    requires DoneUpTo(m0, m, local, f, q) && x == f(m[local[q]])
    ensures DoneUpTo(m0, m[local[q] := x], local, f, q + 1)
  {
  }

  /** A cell f leaves alone extends the walk without a write. */
  lemma LocalKeep(m0: map<CellID, SpatialCell>, m: map<CellID, SpatialCell>,
                  local: seq<CellID>, f: SpatialCell -> SpatialCell, q: nat)
    requires Distinct(local) && q < |local| && forall p :: 0 <= p < |local| ==> local[p] in m0
    requires DoneUpTo(m0, m, local, f, q) && f(m[local[q]]) == m[local[q]]
    ensures DoneUpTo(m0, m, local, f, q + 1)
  {
    LocalStep(m0, m, local, f, q, m[local[q]]);
    assert m[local[q] := m[local[q]]] == m;
  }
}
