/** The second-order reconstruction of B inside a cell
  * (reconstructionCoefficients) and the face and volume averages built on it
  * (averageFace*MagnField, averageFace*ElectricField and the volume averages
  * of calculateVolumeAveragedFields).
  *
  * In normalised cell coordinates (X, Y, Z), each in [-1/2, 1/2], the 21
  * coefficients describe the divergence-free quadratic field
  *   Bx = a0 + ax X + ay Y + az Z + axx (X^2 - 1/12) + axy X Y + axz X Z
  *   By = b0 + bx X + by Y + bz Z + byx X Y + byy (Y^2 - 1/12) + byz Y Z
  *   Bz = c0 + cx X + cy Y + cz Z + czx X Z + czy Y Z + czz (Z^2 - 1/12)
  * of the constrained-transport method. */
module Reconstruction {

  import opened Bits
  import opened NeighbourTopology
  import opened CellState

  const HALF: real := 0.5
  const SIXTH: real := 1.0 / 6.0
  const EIGTH: real := 0.125
  const FOURTH: real := 0.25
  const TWELFTH: real := 1.0 / 12.0

  /** The 21 reconstruction coefficients, in the source's order. */
  datatype Coefficients = Coefficients(
    a_0: real, a_x: real, a_y: real, a_z: real, a_xx: real, a_xy: real, a_xz: real,
    b_0: real, b_x: real, b_y: real, b_z: real, b_yx: real, b_yy: real, b_yz: real,
    c_0: real, c_x: real, c_y: real, c_z: real, c_zx: real, c_zy: real, c_zz: real)

  function ZeroCoefficients(): Coefficients
  {
    Coefficients(0.0, 0.0, 0.0, 0.0, 0.0, 0.0, 0.0,
                 0.0, 0.0, 0.0, 0.0, 0.0, 0.0, 0.0,
                 0.0, 0.0, 0.0, 0.0, 0.0, 0.0, 0.0)
  }

  /** The coefficients of a cell x from its own face B and B derivatives and
    * those of its +x, +y and +z neighbours. */
  function CoefficientsOf(x: CellData, px: CellData, py: CellData, pz: CellData): Coefficients
  {
    var a_xy := px.der[DBSlot(0, 1)] - x.der[DBSlot(0, 1)];
    var a_xz := px.der[DBSlot(0, 2)] - x.der[DBSlot(0, 2)];
    var a_x := px.cp[BX] - x.cp[BX];
    var a_y := HALF * (px.der[DBSlot(0, 1)] + x.der[DBSlot(0, 1)]);
    var a_z := HALF * (px.der[DBSlot(0, 2)] + x.der[DBSlot(0, 2)]);
    var b_yx := py.der[DBSlot(1, 0)] - x.der[DBSlot(1, 0)];
    var b_yz := py.der[DBSlot(1, 2)] - x.der[DBSlot(1, 2)];
    var b_x := HALF * (py.der[DBSlot(1, 0)] + x.der[DBSlot(1, 0)]);
    var b_y := py.cp[BY] - x.cp[BY];
    var b_z := HALF * (py.der[DBSlot(1, 2)] + x.der[DBSlot(1, 2)]);
    var c_zx := pz.der[DBSlot(2, 0)] - x.der[DBSlot(2, 0)];
    var c_zy := pz.der[DBSlot(2, 1)] - x.der[DBSlot(2, 1)];
    var c_x := HALF * (pz.der[DBSlot(2, 0)] + x.der[DBSlot(2, 0)]);
    var c_y := HALF * (pz.der[DBSlot(2, 1)] + x.der[DBSlot(2, 1)]);
    var c_z := pz.cp[BZ] - x.cp[BZ];
    var a_xx := -HALF * (b_yx + c_zx);
    var b_yy := -HALF * (a_xy + c_zy);
    var c_zz := -HALF * (a_xz + b_yz);
    Coefficients(
      HALF * (px.cp[BX] + x.cp[BX]) - SIXTH * a_xx, a_x, a_y, a_z, a_xx, a_xy, a_xz,
      HALF * (py.cp[BY] + x.cp[BY]) - SIXTH * b_yy, b_x, b_y, b_z, b_yx, b_yy, b_yz,
      HALF * (pz.cp[BZ] + x.cp[BZ]) - SIXTH * c_zz, c_x, c_y, c_z, c_zx, c_zy, c_zz)
  }

  /** An ID the source may read: the sentinel, or a stored cell. */
  predicate Known(cells: CellMap, id: CellID)
  {
    id == INVALID_CELLID || id in cells
  }

  /** reconstructionCoefficients: zeros for a missing cell; a missing
    * neighbour reads as all zeros. */
  function ReconstructionCoefficients(cells: CellMap, cell: CellID, i2: CellID, j2: CellID, k2: CellID): (r: Coefficients)
    requires cell == INVALID_CELLID || (cell in cells && Known(cells, i2) && Known(cells, j2) && Known(cells, k2))
    ensures cell == INVALID_CELLID ==> r == ZeroCoefficients()
    ensures cell != INVALID_CELLID && i2 == INVALID_CELLID ==>
      && r.a_x == -cells[cell].cp[BX]
      && r.a_xy == -cells[cell].der[DBSlot(0, 1)] && r.a_y == HALF * cells[cell].der[DBSlot(0, 1)]
      && r.a_0 == HALF * cells[cell].cp[BX] - SIXTH * r.a_xx
    ensures cell != INVALID_CELLID && j2 == INVALID_CELLID ==>
      && r.b_y == -cells[cell].cp[BY]
      && r.b_yx == -cells[cell].der[DBSlot(1, 0)] && r.b_x == HALF * cells[cell].der[DBSlot(1, 0)]
      && r.b_0 == HALF * cells[cell].cp[BY] - SIXTH * r.b_yy
    ensures cell != INVALID_CELLID && k2 == INVALID_CELLID ==>
      && r.c_z == -cells[cell].cp[BZ]
      && r.c_zx == -cells[cell].der[DBSlot(2, 0)] && r.c_x == HALF * cells[cell].der[DBSlot(2, 0)]
      && r.c_0 == HALF * cells[cell].cp[BZ] - SIXTH * r.c_zz
  {
    if cell == INVALID_CELLID then ZeroCoefficients()
    else CoefficientsOf(cells[cell], ReadOrZero(cells, i2), ReadOrZero(cells, j2), ReadOrZero(cells, k2))
  }

  // ---------------------------------------------------------------------
  // The reconstructed field

  /** The constant term of component c (a0, b0, c0). */
  function Const(r: Coefficients, c: Axis): real
  {
    if c == 0 then r.a_0 else if c == 1 then r.b_0 else r.c_0
  }

  /** The linear term of component c along d (ax ... cz). */
  function Slope(r: Coefficients, c: Axis, d: Axis): real
  {
    if c == 0 then (if d == 0 then r.a_x else if d == 1 then r.a_y else r.a_z)
    else if c == 1 then (if d == 0 then r.b_x else if d == 1 then r.b_y else r.b_z)
    else (if d == 0 then r.c_x else if d == 1 then r.c_y else r.c_z)
  }

  /** The quadratic term of component c in its own axis and d (axx ... czz). */
  function Second(r: Coefficients, c: Axis, d: Axis): real
  {
    if c == 0 then (if d == 0 then r.a_xx else if d == 1 then r.a_xy else r.a_xz)
    else if c == 1 then (if d == 0 then r.b_yx else if d == 1 then r.b_yy else r.b_yz)
    else (if d == 0 then r.c_zx else if d == 1 then r.c_zy else r.c_zz)
  }

  /** A point of the cell in normalised coordinates. */
  datatype Point = Point(X: real, Y: real, Z: real)

  /** The reconstructed Bx, By and Bz at p. */
  function Bx(r: Coefficients, p: Point): real
  {
    r.a_0 + r.a_x * p.X + r.a_y * p.Y + r.a_z * p.Z
    + r.a_xx * (p.X * p.X - TWELFTH) + r.a_xy * p.X * p.Y + r.a_xz * p.X * p.Z
  }

  function By(r: Coefficients, p: Point): real
  {
    r.b_0 + r.b_x * p.X + r.b_y * p.Y + r.b_z * p.Z
    + r.b_yx * p.X * p.Y + r.b_yy * (p.Y * p.Y - TWELFTH) + r.b_yz * p.Y * p.Z
  }

  function Bz(r: Coefficients, p: Point): real
  {
    r.c_0 + r.c_x * p.X + r.c_y * p.Y + r.c_z * p.Z
    + r.c_zx * p.X * p.Z + r.c_zy * p.Y * p.Z + r.c_zz * (p.Z * p.Z - TWELFTH)
  }

  /** Component c of the reconstructed B at p. */
  function FieldAt(r: Coefficients, c: Axis, p: Point): real
  {
    if c == 0 then Bx(r, p) else if c == 1 then By(r, p) else Bz(r, p)
  }

  /** The divergence of the reconstructed field at p: dBx/dX + dBy/dY + dBz/dZ. */
  function DivergenceAt(r: Coefficients, p: Point): real
  {
    (r.a_x + 2.0 * r.a_xx * p.X + r.a_xy * p.Y + r.a_xz * p.Z)
    + (r.b_y + r.b_yx * p.X + 2.0 * r.b_yy * p.Y + r.b_yz * p.Z)
    + (r.c_z + r.c_zx * p.X + r.c_zy * p.Y + 2.0 * r.c_zz * p.Z)
  }

  /** The quadratic terms satisfy the divergence constraint. */
  predicate Solenoidal(r: Coefficients)
  {
    && 2.0 * r.a_xx + r.b_yx + r.c_zx == 0.0
    && r.a_xy + 2.0 * r.b_yy + r.c_zy == 0.0
    && r.a_xz + r.b_yz + 2.0 * r.c_zz == 0.0
  }

  /** axx, byy and czz are built so that the divergence constraint holds. */
  lemma CoefficientsSolenoidal(x: CellData, px: CellData, py: CellData, pz: CellData)
    ensures Solenoidal(CoefficientsOf(x, px, py, pz))
  {
  }

  /** A solenoidal reconstruction has the same divergence everywhere in the
    * cell: ax + by + cz. */
  lemma DivergenceConstant(r: Coefficients, p: Point)
    requires Solenoidal(r)
    ensures DivergenceAt(r, p) == r.a_x + r.b_y + r.c_z
  {
    assert DivergenceAt(r, p) == r.a_x + r.b_y + r.c_z
      + (2.0 * r.a_xx + r.b_yx + r.c_zx) * p.X
      + (r.a_xy + 2.0 * r.b_yy + r.c_zy) * p.Y
      + (r.a_xz + r.b_yz + 2.0 * r.c_zz) * p.Z;
  }

  /** ... and that constant is the net flux of the face B out of the cell
    * (in units of the face area). */
  lemma DivergenceIsNetFlux(x: CellData, px: CellData, py: CellData, pz: CellData, p: Point)
    ensures DivergenceAt(CoefficientsOf(x, px, py, pz), p)
      == (px.cp[BX] - x.cp[BX]) + (py.cp[BY] - x.cp[BY]) + (pz.cp[BZ] - x.cp[BZ])
  {
    DivergenceConstant(CoefficientsOf(x, px, py, pz), p);
  }

  // ---------------------------------------------------------------------
  // Face and volume means

  /** The point at coordinate s along n and u, v along the next two axes. */
  function OnFace(n: Axis, s: real, u: real, v: real): Point
  {
    if n == 0 then Point(s, u, v) else if n == 1 then Point(v, s, u) else Point(u, v, s)
  }

  /** Simpson's rule on [-1/2, 1/2], exact for cubics. */
  function Simpson(lo: real, mid: real, hi: real): real
  {
    (lo + 4.0 * mid + hi) / 6.0
  }

  /** Simpson's rule for B_c along the line at s (along n) and v (along the
    * second face axis). */
  function LineQuadrature(r: Coefficients, c: Axis, n: Axis, s: real, v: real): real
  {
    Simpson(FieldAt(r, c, OnFace(n, s, -HALF, v)), FieldAt(r, c, OnFace(n, s, 0.0, v)), FieldAt(r, c, OnFace(n, s, HALF, v)))
  }

  /** Simpson's rule in both face axes for B_c over the face at coordinate s
    * along n: the exact mean of any field quadratic in each axis. */
  function FaceQuadrature(r: Coefficients, c: Axis, n: Axis, s: real): real
  {
    Simpson(LineQuadrature(r, c, n, s, -HALF), LineQuadrature(r, c, n, s, 0.0), LineQuadrature(r, c, n, s, HALF))
  }

  /** The mean of B_c over the face at s along n in closed form: the terms
    * linear in a face axis average out, and for c == n the n^2 term keeps
    * s^2 - 1/12. */
  function FaceMean(r: Coefficients, c: Axis, n: Axis, s: real): real
  {
    Const(r, c) + Slope(r, c, n) * s + (if n == c then Second(r, c, c) * (s * s - TWELFTH) else 0.0)
  }

  /** The mean of B_c over the cell: Simpson's rule along c of its face means. */
  function VolumeMean(r: Coefficients, c: Axis): real
  {
    Simpson(FaceMean(r, c, c, -HALF), FaceMean(r, c, c, 0.0), FaceMean(r, c, c, HALF))
  }

  /** The quadrature over a face normal to x agrees with the closed form. */
  lemma FaceQuadratureX(r: Coefficients, c: Axis, s: real)
    ensures FaceQuadrature(r, c, 0, s) == FaceMean(r, c, 0, s)
  {
    if c == 0 {
      assert FaceQuadrature(r, 0, 0, s) == FaceMean(r, 0, 0, s);
    } else if c == 1 {
      assert FaceQuadrature(r, 1, 0, s) == FaceMean(r, 1, 0, s);
    } else {
      assert FaceQuadrature(r, 2, 0, s) == FaceMean(r, 2, 0, s);
    }
  }

  /** The quadrature over a face normal to y agrees with the closed form. */
  lemma FaceQuadratureY(r: Coefficients, c: Axis, s: real)
    ensures FaceQuadrature(r, c, 1, s) == FaceMean(r, c, 1, s)
  {
    if c == 0 {
      assert FaceQuadrature(r, 0, 1, s) == FaceMean(r, 0, 1, s);
    } else if c == 1 {
      assert FaceQuadrature(r, 1, 1, s) == FaceMean(r, 1, 1, s);
    } else {
      assert FaceQuadrature(r, 2, 1, s) == FaceMean(r, 2, 1, s);
    }
  }

  /** The quadrature over a face normal to z agrees with the closed form. */
  lemma FaceQuadratureZ(r: Coefficients, c: Axis, s: real)
    ensures FaceQuadrature(r, c, 2, s) == FaceMean(r, c, 2, s)
  {
    if c == 0 {
      assert FaceQuadrature(r, 0, 2, s) == FaceMean(r, 0, 2, s);
    } else if c == 1 {
      assert FaceQuadrature(r, 1, 2, s) == FaceMean(r, 1, 2, s);
    } else {
      assert FaceQuadrature(r, 2, 2, s) == FaceMean(r, 2, 2, s);
    }
  }

  /** The cell mean of each component is its constant term, the value the
    * source stores as the volume average (BXVOL = a0, ...). */
  lemma VolumeMeanIsConst(r: Coefficients, c: Axis)
    ensures VolumeMean(r, c) == Const(r, c)
  {
  }

  /** The reconstruction reproduces the face values it was built from: the
    * mean of B_c over the cell's lower c-face is the cell's own B_c, over its
    * upper c-face the neighbour's. */
  lemma FacesReproduced(x: CellData, px: CellData, py: CellData, pz: CellData, c: Axis)
    ensures var r := CoefficientsOf(x, px, py, pz);
      var up := if c == 0 then px else if c == 1 then py else pz;
      FaceMean(r, c, c, -HALF) == x.cp[BSlot(c)] && FaceMean(r, c, c, HALF) == up.cp[BSlot(c)]
  {
  }

  // ---------------------------------------------------------------------
  // Face-averaged B

  /** A vector of three components x, y, z. */
  datatype Vec = Vec(x: real, y: real, z: real)

  function Get(v: Vec, a: Axis): real
  {
    if a == 0 then v.x else if a == 1 then v.y else v.z
  }

  const ZERO_VEC: Vec := Vec(0.0, 0.0, 0.0)

  /** averageFace{X,Y,Z}MagnField as written: B on the n-face of cell seen
    * from side I (-1 for the cell's lower face, +1 when cell is the lower
    * neighbour and the face is its upper face): the normal component is the
    * cell's own B_n, the others r_t0 + I/2 r_tn. */
  function MagnFieldAsWritten(cells: CellMap, cell: CellID, r: Coefficients, n: Axis, side: int): (v: Vec)
    requires cell == INVALID_CELLID || cell in cells
    ensures cell == INVALID_CELLID ==> v == ZERO_VEC
  {
    if cell == INVALID_CELLID then ZERO_VEC
    else
      var s := side as real * HALF;
      Vec(if n == 0 then cells[cell].cp[BX] else Const(r, 0) + s * Slope(r, 0, n),
          if n == 1 then cells[cell].cp[BY] else Const(r, 1) + s * Slope(r, 1, n),
          if n == 2 then cells[cell].cp[BZ] else Const(r, 2) + s * Slope(r, 2, n))
  }

  /** B on a face as the mean of the reconstruction over it: the normal
    * component from the upper face (side +1) is the reconstruction's value
    * there, not the cell's own lower-face B_n. */
  function MagnField(cells: CellMap, cell: CellID, r: Coefficients, n: Axis, side: int): (v: Vec)
    requires cell == INVALID_CELLID || cell in cells
    ensures cell == INVALID_CELLID ==> v == ZERO_VEC
  {
    if cell == INVALID_CELLID then ZERO_VEC
    else
      var s := side as real * HALF;
      var normal := if side < 0 then cells[cell].cp[BSlot(n)] else Const(r, n) + s * Slope(r, n, n) + SIXTH * Second(r, n, n);
      Vec(if n == 0 then normal else Const(r, 0) + s * Slope(r, 0, n),
          if n == 1 then normal else Const(r, 1) + s * Slope(r, 1, n),
          if n == 2 then normal else Const(r, 2) + s * Slope(r, 2, n))
  }

  /** With coefficients that reproduce the cell's lower n-face (as the
    * cell's own coefficients do, FacesReproduced), every component of
    * MagnField on either face is the mean of the reconstruction over it. */
  lemma MagnFieldIsFaceMean(cells: CellMap, cell: CellID, r: Coefficients, n: Axis, side: int, c: Axis)
    requires cell in cells && cell != INVALID_CELLID
    requires side == -1 || side == 1
    requires FaceMean(r, n, n, -HALF) == cells[cell].cp[BSlot(n)]
    ensures Get(MagnField(cells, cell, r, n, side), c) == FaceMean(r, c, n, side as real * HALF)
  {
  }

  /** As written, the normal B from the upper side is the lower neighbour's
    * own lower face: with B_x = 1 on the cell's lower face and 0 elsewhere,
    * the x-face value from the lower neighbour is 0 where its upper face
    * carries 1. */
  lemma UpperNormalIsWrongFace(cells: CellMap, lower: CellID, x: CellData, py: CellData, pz: CellData)
    requires lower in cells && lower != INVALID_CELLID
    requires cells[lower].cp[BX] == 0.0 && x.cp[BX] == 1.0
    ensures var r := CoefficientsOf(cells[lower], x, py, pz);
      MagnFieldAsWritten(cells, lower, r, 0, 1).x == 0.0
      && MagnField(cells, lower, r, 0, 1).x == 1.0
      && FaceMean(r, 0, 0, HALF) == 1.0
  {
    FacesReproduced(cells[lower], x, py, pz, 0);
  }

  // ---------------------------------------------------------------------
  // Face- and volume-averaged E

  /** Offset of a neighbour, each component in -1..1. */
  type Offset = (int, int, int)

  predicate SmallOffsets(os: seq<Offset>)
  {
    forall q :: 0 <= q < |os| ==> -1 <= os[q].0 <= 1 && -1 <= os[q].1 <= 1 && -1 <= os[q].2 <= 1
  }

  /** The eight cells averageFace{X,Y,Z}ElectricField reads, in the source's
    * order: the cell and its neighbours at +1 along one or both face axes,
    * then the same four shifted by -1 along the normal n. */
  function FaceECells(n: Axis): (os: seq<Offset>)
    ensures |os| == 8 && SmallOffsets(os) && os[0] == (0, 0, 0)
  {
    if n == 0 then [(0, 0, 0), (0, 1, 0), (0, 0, 1), (0, 1, 1), (-1, 0, 0), (-1, 1, 0), (-1, 0, 1), (-1, 1, 1)]
    else if n == 1 then [(0, 0, 0), (1, 0, 0), (0, 0, 1), (1, 0, 1), (0, -1, 0), (1, -1, 0), (0, -1, 1), (1, -1, 1)]
    else [(0, 0, 0), (1, 0, 0), (0, 1, 0), (1, 1, 0), (0, 0, -1), (1, 0, -1), (0, 1, -1), (1, 1, -1)]
  }

  /** The cells the source reads for each face: for the z face the seventh
    * read takes the (0,0,-1) cell again instead of (0,1,-1). */
  function FaceECellsAsWritten(n: Axis): (os: seq<Offset>)
    ensures |os| == 8 && SmallOffsets(os) && os[0] == (0, 0, 0)
  {
    if n == 2 then FaceECells(2)[6 := (0, 0, -1)] else FaceECells(n)
  }

  /** As written, the z-face mean counts the (0,0,-1) cell twice and never
    * reads the (0,1,-1) cell, which its own mask requires; the corrected
    * lists read eight distinct cells. */
  lemma ZFaceReadsOneCellTwice()
    ensures FaceECellsAsWritten(2)[4] == FaceECellsAsWritten(2)[6] == (0, 0, -1)
    ensures (0, 1, -1) in FaceECells(2) && (0, 1, -1) !in FaceECellsAsWritten(2)
    ensures forall n: Axis, i, j :: 0 <= i < j < 8 ==> FaceECells(n)[i] != FaceECells(n)[j]
  {
    assert FaceECells(2)[6] == (0, 1, -1);
  }

  /** The four cells the volume average of E_t reads: the cell and its
    * neighbours at +1 along one or both of the other axes. */
  function VolumeECells(t: Axis): (os: seq<Offset>)
    ensures |os| == 4 && SmallOffsets(os)
  {
    if t == 0 then [(0, 0, 0), (0, 1, 0), (0, 0, 1), (0, 1, 1)]
    else if t == 1 then [(0, 0, 0), (1, 0, 0), (0, 0, 1), (1, 0, 1)]
    else [(0, 0, 0), (1, 0, 0), (0, 1, 0), (1, 1, 0)]
  }

  /** Cube positions of offsets: (i,j,k) of calcNbrNumber. */
  function Positions(os: seq<Offset>): (ps: seq<(nat, nat, nat)>)
    requires SmallOffsets(os)
    ensures |ps| == |os|
    ensures forall q :: 0 <= q < |ps| ==>
      (InCube(ps[q]) && ps[q] == ((os[q].0 + 1) as nat, (os[q].1 + 1) as nat, (os[q].2 + 1) as nat))
  {
    if |os| == 0 then []
    else
      var o := os[|os| - 1];
      Positions(os[..|os| - 1]) + [((o.0 + 1) as nat, (o.1 + 1) as nat, (o.2 + 1) as nat)]
  }

  /** The bit number of the neighbour at a small offset. */
  function OffsetNumber(o: Offset): BitIndex
    requires -1 <= o.0 <= 1 && -1 <= o.1 <= 1 && -1 <= o.2 <= 1
  {
    NbrNumber((o.0 + 1) as nat, (o.1 + 1) as nat, (o.2 + 1) as nat)
  }

  /** REQUIRED_CELLS of averageFace{X,Y,Z}ElectricField: the bits of the
    * face's eight cells. */
  function FaceEMask(n: Axis): Word
  {
    set q | 0 <= q < 8 :: OffsetNumber(FaceECells(n)[q])
  }

  /** EX_CELLS, EY_CELLS, EZ_CELLS of the volume averages: the bits of the
    * four cells. */
  function VolumeEMask(t: Axis): Word
  {
    set q | 0 <= q < 4 :: OffsetNumber(VolumeECells(t)[q])
  }

  /** A mask built from positions is the word whose bits are exactly the
    * positions' neighbour numbers. */
  lemma MaskOfIs(ps: seq<(nat, nat, nat)>, m: Word)
    requires forall q :: 0 <= q < |ps| ==> InCube(ps[q]) && NbrNumber(ps[q].0, ps[q].1, ps[q].2) in m
    requires forall b :: b in m ==> exists q :: 0 <= q < |ps| && InCube(ps[q]) && NbrNumber(ps[q].0, ps[q].1, ps[q].2) == b
    ensures MaskOf(ps) == m
  {
    HasMaskOf(m, ps);
    HasMaskOf(MaskOf(ps), ps);
  }

  /** Each face mask is the OR of the bits of the face's eight cells, as the
    * source builds it. */
  lemma FaceEMaskBuilt(n: Axis)
    ensures FaceEMask(n) == MaskOf(Positions(FaceECells(n)))
  {
    var os := FaceECells(n);
    var ps := Positions(os);
    forall q | 0 <= q < 8 ensures NbrNumber(ps[q].0, ps[q].1, ps[q].2) == OffsetNumber(os[q]) { }
    MaskOfIs(ps, FaceEMask(n));
  }

  /** Each volume mask is the OR of the bits of its four cells. */
  lemma VolumeEMaskBuilt(t: Axis)
    ensures VolumeEMask(t) == MaskOf(Positions(VolumeECells(t)))
  {
    var os := VolumeECells(t);
    var ps := Positions(os);
    forall q | 0 <= q < 4 ensures NbrNumber(ps[q].0, ps[q].1, ps[q].2) == OffsetNumber(os[q]) { }
    MaskOfIs(ps, VolumeEMask(t));
  }

  /** The cell at an offset; offset 0 is the cell itself. */
  function CellAt(g: NeighbourQuery, cell: CellID, o: Offset): CellID
    requires -1 <= o.0 <= 1 && -1 <= o.1 <= 1 && -1 <= o.2 <= 1
  {
    if o == (0, 0, 0) then cell else NbrAt(g, cell, o)
  }

  /** On a cell's existence flags, a mask built from offsets holds exactly
    * when every listed neighbour exists. */
  lemma OffsetGate(g: NeighbourQuery, cell: CellID, os: seq<Offset>)
    requires SmallOffsets(os)
    ensures Has(ExistenceMask(g, cell), MaskOf(Positions(os))) <==>
      forall q :: 0 <= q < |os| ==> Reported(g, cell, os[q])
  {
    var w := ExistenceMask(g, cell);
    WordGate(w, os);
    forall q | 0 <= q < |os|
      ensures Bit(w, OffsetNumber(os[q])) <==> Reported(g, cell, os[q])
    {
      OffsetBitReported(g, cell, os[q]);
    }
  }

  lemma {:induction false} WordGate(w: Word, os: seq<Offset>)
    requires SmallOffsets(os)
    ensures Has(w, MaskOf(Positions(os))) <==> forall q :: 0 <= q < |os| ==> Bit(w, OffsetNumber(os[q]))
  {
    if |os| > 0 {
      var front := os[..|os| - 1];
      var o := os[|os| - 1];
      var ps := Positions(os);
      var p := ps[|os| - 1];
      assert ps[..|os| - 1] == Positions(front);
      assert MaskOf(ps) == Or(MaskOf(Positions(front)), Shl(OffsetNumber(o)));
      WordGate(w, front);
      HasOr(w, MaskOf(Positions(front)), OffsetNumber(o));
      if forall q :: 0 <= q < |os| ==> Bit(w, OffsetNumber(os[q])) {
        forall q | 0 <= q < |front| ensures Bit(w, OffsetNumber(front[q])) {
          assert front[q] == os[q];
        }
      }
    }
  }

  /** The neighbour at an offset exists, or the offset is the cell itself. */
  predicate Reported(g: NeighbourQuery, cell: CellID, o: Offset)
    requires -1 <= o.0 <= 1 && -1 <= o.1 <= 1 && -1 <= o.2 <= 1
  {
    o != (0, 0, 0) ==> NbrAt(g, cell, o) != INVALID_CELLID
  }

  lemma OffsetBitReported(g: NeighbourQuery, cell: CellID, o: Offset)
    requires -1 <= o.0 <= 1 && -1 <= o.1 <= 1 && -1 <= o.2 <= 1
    ensures Bit(ExistenceMask(g, cell), OffsetNumber(o)) <==> Reported(g, cell, o)
  {
    var p := ((o.0 + 1) as nat, (o.1 + 1) as nat, (o.2 + 1) as nat);
    if o == (0, 0, 0) {
      assert OffsetNumber(o) == 13;
      ExistenceMaskBits(g, cell, 13);
    } else {
      assert InCube(p) && p != (1, 1, 1);
      PositionBit(g, cell, p);
      assert PositionTypeID(p) == NbrTypeID(2 + o.0, 2 + o.1, 2 + o.2);
    }
  }

  /** Every listed cell is stored. */
  predicate AllStored(cells: CellMap, g: NeighbourQuery, cell: CellID, os: seq<Offset>)
    requires SmallOffsets(os)
  {
    forall q :: 0 <= q < |os| ==> CellAt(g, cell, os[q]) in cells
  }

  /** E_t of the cell at an offset. */
  function EAt(cells: CellMap, g: NeighbourQuery, cell: CellID, o: Offset, t: Axis): real
    requires -1 <= o.0 <= 1 && -1 <= o.1 <= 1 && -1 <= o.2 <= 1
    requires CellAt(g, cell, o) in cells
  {
    cells[CellAt(g, cell, o)].cp[ESlot(t)]
  }

  /** Sum of E_t over the listed cells. */
  function SumE(cells: CellMap, g: NeighbourQuery, cell: CellID, os: seq<Offset>, t: Axis): real
    requires SmallOffsets(os) && AllStored(cells, g, cell, os)
  {
    if |os| == 0 then 0.0
    else SumE(cells, g, cell, os[..|os| - 1], t) + EAt(cells, g, cell, os[|os| - 1], t)
  }

  /** Over cells that all carry the same E_t, the sum is |os| times it. */
  lemma {:induction false} SumEUniform(cells: CellMap, g: NeighbourQuery, cell: CellID, os: seq<Offset>, t: Axis, e: real)
    requires SmallOffsets(os) && AllStored(cells, g, cell, os)
    requires forall q :: 0 <= q < |os| ==> EAt(cells, g, cell, os[q], t) == e
    ensures SumE(cells, g, cell, os, t) == |os| as real * e
  {
    if |os| > 0 {
      var front := os[..|os| - 1];
      assert forall q :: 0 <= q < |front| ==> front[q] == os[q];
      SumEUniform(cells, g, cell, front, t, e);
    }
  }

  /** The face axis other than n and t. */
  function Third(n: Axis, t: Axis): (u: Axis)
    requires n != t
    ensures u != n && u != t
  {
    3 - n - t
  }

  /** Where, in the list of the n face, the neighbour along the third axis
    * of a tangential component t sits. */
  function PairIndex(n: Axis, t: Axis): (q: nat)
    requires n != t
    ensures 1 <= q <= 2
  {
    if Third(n, t) < t then 1 else 2
  }

  /** The tangential E_t on the n face pairs the cell with its neighbour
    * along the one remaining axis. */
  lemma PairIsAlongThird(n: Axis, t: Axis)
    requires n != t
    ensures FaceECells(n)[PairIndex(n, t)] == AxisOffset(Third(n, t), 1)
    ensures FaceECellsAsWritten(n)[PairIndex(n, t)] == FaceECells(n)[PairIndex(n, t)]
  {
  }

  /** Component t of the E read on the n face from the listed cells: for the
    * normal component the mean of all eight, for a tangential one the mean
    * of the cell and its neighbour along the third axis. */
  function FaceEComponent(cells: CellMap, g: NeighbourQuery, cell: CellID, n: Axis, os: seq<Offset>, t: Axis): real
    requires |os| == 8 && SmallOffsets(os) && AllStored(cells, g, cell, os)
  {
    if t == n then EIGTH * SumE(cells, g, cell, os, t)
    else HALF * (EAt(cells, g, cell, os[0], t) + EAt(cells, g, cell, os[PairIndex(n, t)], t))
  }

  /** averageFace{X,Y,Z}ElectricField over a list of cells: zeros for a
    * missing cell or when the existence flags lack a required neighbour. */
  function FaceEOver(cells: CellMap, g: NeighbourQuery, cell: CellID, n: Axis, existing: Word, os: seq<Offset>): (v: Vec)
    requires |os| == 8 && SmallOffsets(os)
    requires cell != INVALID_CELLID && Has(existing, FaceEMask(n)) ==> AllStored(cells, g, cell, os)
    ensures cell == INVALID_CELLID || !Has(existing, FaceEMask(n)) ==> v == ZERO_VEC
  {
    if cell == INVALID_CELLID || !Has(existing, FaceEMask(n)) then ZERO_VEC
    else
      Vec(FaceEComponent(cells, g, cell, n, os, 0),
          FaceEComponent(cells, g, cell, n, os, 1),
          FaceEComponent(cells, g, cell, n, os, 2))
  }

  /** The as-written lists read no cell the corrected lists do not. */
  lemma AsWrittenStored(cells: CellMap, g: NeighbourQuery, cell: CellID, n: Axis)
    requires AllStored(cells, g, cell, FaceECells(n))
    ensures AllStored(cells, g, cell, FaceECellsAsWritten(n))
  {
    if n == 2 {
      assert FaceECellsAsWritten(2)[6] == FaceECells(2)[4];
    }
  }

  /** The face E of the source, as written. */
  function FaceEAsWritten(cells: CellMap, g: NeighbourQuery, cell: CellID, n: Axis, existing: Word): Vec
    requires cell != INVALID_CELLID && Has(existing, FaceEMask(n)) ==> AllStored(cells, g, cell, FaceECells(n))
  {
    if cell != INVALID_CELLID && Has(existing, FaceEMask(n)) then AsWrittenStored(cells, g, cell, n); FaceEOver(cells, g, cell, n, existing, FaceECellsAsWritten(n))
    else ZERO_VEC
  }

  /** The face E over the eight cells its mask requires. */
  function FaceE(cells: CellMap, g: NeighbourQuery, cell: CellID, n: Axis, existing: Word): Vec
    requires cell != INVALID_CELLID && Has(existing, FaceEMask(n)) ==> AllStored(cells, g, cell, FaceECells(n))
  {
    FaceEOver(cells, g, cell, n, existing, FaceECells(n))
  }

  /** Where the eight cells share one E, the face E is that E. */
  lemma FaceEUniform(cells: CellMap, g: NeighbourQuery, cell: CellID, n: Axis, existing: Word, e: Vec)
    requires cell != INVALID_CELLID && Has(existing, FaceEMask(n))
    requires AllStored(cells, g, cell, FaceECells(n))
    requires forall q, t: Axis :: 0 <= q < 8 ==> EAt(cells, g, cell, FaceECells(n)[q], t) == Get(e, t)
    ensures FaceE(cells, g, cell, n, existing) == e
  {
    var os := FaceECells(n);
    SumEUniform(cells, g, cell, os, n, Get(e, n));
    forall t: Axis | t != n
      ensures FaceEComponent(cells, g, cell, n, os, t) == Get(e, t)
    {
      assert EAt(cells, g, cell, os[0], t) == Get(e, t);
      assert EAt(cells, g, cell, os[PairIndex(n, t)], t) == Get(e, t);
    }
    assert FaceEComponent(cells, g, cell, n, os, n) == Get(e, n);
  }

  /** As written, the z-face Ez is off by an eighth of the difference
    * between the (0,0,-1) and (0,1,-1) cells (the fifth and seventh of the
    * corrected list); the other components agree. */
  lemma ZFaceAsWrittenError(cells: CellMap, g: NeighbourQuery, cell: CellID, existing: Word)
    requires cell != INVALID_CELLID && Has(existing, FaceEMask(2))
    requires AllStored(cells, g, cell, FaceECells(2))
    ensures var w := FaceEAsWritten(cells, g, cell, 2, existing);
      var c := FaceE(cells, g, cell, 2, existing);
      && w.x == c.x && w.y == c.y
      && w.z == c.z + EIGTH * (EAt(cells, g, cell, FaceECells(2)[4], 2) - EAt(cells, g, cell, FaceECells(2)[6], 2))
  {
    var os := FaceECells(2);
    var ws := FaceECellsAsWritten(2);
    AsWrittenStored(cells, g, cell, 2);
    assert os[6] == (0, 1, -1) && ws[6] == (0, 0, -1);
    assert forall q :: 0 <= q < 8 && q != 6 ==> ws[q] == os[q];
    SumEReplaced(cells, g, cell, os, ws, 6, 2);
    PairIsAlongThird(2, 0);
    PairIsAlongThird(2, 1);
  }

  /** Replacing the cell at one index of a list changes the sum by the
    * difference of the two cells' E_t. */
  lemma {:induction false} SumEReplaced(cells: CellMap, g: NeighbourQuery, cell: CellID, os: seq<Offset>, ws: seq<Offset>, k: nat, t: Axis)
    requires SmallOffsets(os) && AllStored(cells, g, cell, os)
    requires SmallOffsets(ws) && AllStored(cells, g, cell, ws)
    requires |ws| == |os| && k < |os|
    requires forall q :: 0 <= q < |os| && q != k ==> ws[q] == os[q]
    ensures SumE(cells, g, cell, ws, t) == SumE(cells, g, cell, os, t) + EAt(cells, g, cell, ws[k], t) - EAt(cells, g, cell, os[k], t)
  {
    var m := |os| - 1;
    if k == m {
      assert ws[..m] == os[..m];
    } else {
      SumEReplaced(cells, g, cell, os[..m], ws[..m], k, t);
    }
  }

  /** The volume average of E_t (EXVOL, EYVOL, EZVOL): the mean of the four
    * cells whose t-edges bound the cell, or 0 when one is missing. */
  function VolumeE(cells: CellMap, g: NeighbourQuery, cell: CellID, t: Axis, existing: Word): (e: real)
    requires Has(existing, VolumeEMask(t)) ==> AllStored(cells, g, cell, VolumeECells(t))
    ensures !Has(existing, VolumeEMask(t)) ==> e == 0.0
  {
    if Has(existing, VolumeEMask(t)) then FOURTH * SumE(cells, g, cell, VolumeECells(t), t) else 0.0
  }

  /** Where the four cells share one E_t, the volume average is that E_t. */
  lemma VolumeEUniform(cells: CellMap, g: NeighbourQuery, cell: CellID, t: Axis, existing: Word, e: real)
    requires Has(existing, VolumeEMask(t)) && AllStored(cells, g, cell, VolumeECells(t))
    requires forall q :: 0 <= q < 4 ==> EAt(cells, g, cell, VolumeECells(t)[q], t) == e
    ensures VolumeE(cells, g, cell, t, existing) == e
  {
    SumEUniform(cells, g, cell, VolumeECells(t), t, e);
  }

  // ---------------------------------------------------------------------
  // Per-cell face and volume averages

  /** The flags of a cell, 0 when the cell has none (boundaryFlags.find). */
  function FlagOf(flags: map<CellID, Word>, cell: CellID): (w: Word)
    ensures cell !in flags ==> w == ZERO
  {
    if cell in flags then flags[cell] else ZERO
  }

  /** Every stored flag word is the existence mask of its cell. */
  predicate FlagsSound(flags: map<CellID, Word>, g: NeighbourQuery)
  {
    forall c :: c in flags ==> flags[c] == ExistenceMask(g, c)
  }

  /** The cell is stored, and so is every neighbour of its 3x3x3 block that
    * the mesh reports. */
  predicate NeighbourhoodKnown(cells: CellMap, g: NeighbourQuery, cell: CellID)
  {
    && cell != INVALID_CELLID && cell in cells
    && forall i, j, k :: -1 <= i <= 1 && -1 <= j <= 1 && -1 <= k <= 1 ==> Known(cells, Nbr(g, cell, i, j, k))
  }

  /** When sound flags pass a gate built from offsets, every cell the gate
    * names is stored. */
  lemma StoredWhenGated(cells: CellMap, g: NeighbourQuery, flags: map<CellID, Word>, cell: CellID, os: seq<Offset>)
    requires NeighbourhoodKnown(cells, g, cell) && FlagsSound(flags, g)
    requires SmallOffsets(os) && |os| > 0
    requires Has(FlagOf(flags, cell), MaskOf(Positions(os)))
    ensures AllStored(cells, g, cell, os)
  {
    MaskNonEmpty(Positions(os));
    assert cell in flags;
    OffsetGate(g, cell, os);
    forall q | 0 <= q < |os|
      ensures CellAt(g, cell, os[q]) in cells
    {
      assert Reported(g, cell, os[q]);
      if os[q] != (0, 0, 0) {
        assert Known(cells, Nbr(g, cell, os[q].0, os[q].1, os[q].2));
      }
    }
  }

  /** A mask built from at least one position is not 0. */
  lemma MaskNonEmpty(ps: seq<(nat, nat, nat)>)
    requires |ps| > 0 && forall q :: 0 <= q < |ps| ==> InCube(ps[q])
    ensures MaskOf(ps) != ZERO
  {
    HasMaskOf(MaskOf(ps), ps);
    assert InCube(ps[0]) && Bit(MaskOf(ps), NbrNumber(ps[0].0, ps[0].1, ps[0].2));
  }

  function Add(o: Offset, p: Offset): Offset
  {
    (o.0 + p.0, o.1 + p.1, o.2 + p.2)
  }

  /** The coefficients of the cell from its +x, +y, +z neighbours. */
  function OwnCoefficients(cells: CellMap, g: NeighbourQuery, cell: CellID): Coefficients
    requires NeighbourhoodKnown(cells, g, cell)
  {
    ReconstructionCoefficients(cells, cell, Nbr(g, cell, 1, 0, 0), Nbr(g, cell, 0, 1, 0), Nbr(g, cell, 0, 0, 1))
  }

  /** The -n neighbour of the cell. */
  function Lower(g: NeighbourQuery, cell: CellID, n: Axis): CellID
  {
    NbrAt(g, cell, AxisOffset(n, -1))
  }

  /** The +a neighbour of the -n neighbour, as the cell's own neighbour: the
    * cell itself for a == n. */
  function LowerUp(g: NeighbourQuery, cell: CellID, n: Axis, a: Axis): CellID
  {
    if a == n then cell else NbrAt(g, cell, Add(AxisOffset(n, -1), AxisOffset(a, 1)))
  }

  /** The coefficients of the -n neighbour. */
  function LowerCoefficients(cells: CellMap, g: NeighbourQuery, cell: CellID, n: Axis): Coefficients
    requires NeighbourhoodKnown(cells, g, cell)
  {
    ReconstructionCoefficients(cells, Lower(g, cell, n),
      LowerUp(g, cell, n, 0), LowerUp(g, cell, n, 1), LowerUp(g, cell, n, 2))
  }

  /** The face B of the cell's lower n-face as written: the mean of the
    * cell's side and the -n neighbour's side. */
  function FaceBAsWritten(cells: CellMap, g: NeighbourQuery, cell: CellID, n: Axis): Vec
    requires NeighbourhoodKnown(cells, g, cell)
  {
    var own := MagnFieldAsWritten(cells, cell, OwnCoefficients(cells, g, cell), n, -1);
    var low := MagnFieldAsWritten(cells, Lower(g, cell, n), LowerCoefficients(cells, g, cell, n), n, 1);
    Vec(HALF * (own.x + low.x), HALF * (own.y + low.y), HALF * (own.z + low.z))
  }

  /** The face B with the -n neighbour's side taken from its reconstruction. */
  function FaceB(cells: CellMap, g: NeighbourQuery, cell: CellID, n: Axis): Vec
    requires NeighbourhoodKnown(cells, g, cell)
  {
    var own := MagnField(cells, cell, OwnCoefficients(cells, g, cell), n, -1);
    var low := MagnField(cells, Lower(g, cell, n), LowerCoefficients(cells, g, cell, n), n, 1);
    Vec(HALF * (own.x + low.x), HALF * (own.y + low.y), HALF * (own.z + low.z))
  }

  /** The cell's side of its lower n-face is the mean of its own
    * reconstruction over that face, and its normal component the cell's B_n. */
  lemma OwnSide(cells: CellMap, g: NeighbourQuery, cell: CellID, n: Axis, t: Axis)
    requires NeighbourhoodKnown(cells, g, cell)
    ensures var r := OwnCoefficients(cells, g, cell);
      Get(MagnField(cells, cell, r, n, -1), t) == FaceMean(r, t, n, -HALF)
      && Get(MagnField(cells, cell, r, n, -1), n) == cells[cell].cp[BSlot(n)]
  {
    assert Known(cells, Nbr(g, cell, 1, 0, 0)) && Known(cells, Nbr(g, cell, 0, 1, 0)) && Known(cells, Nbr(g, cell, 0, 0, 1));
    var px, py, pz := ReadOrZero(cells, Nbr(g, cell, 1, 0, 0)), ReadOrZero(cells, Nbr(g, cell, 0, 1, 0)), ReadOrZero(cells, Nbr(g, cell, 0, 0, 1));
    var r := OwnCoefficients(cells, g, cell);
    assert r == CoefficientsOf(cells[cell], px, py, pz);
    FacesReproduced(cells[cell], px, py, pz, n);
    MagnFieldIsFaceMean(cells, cell, r, n, -1, t);
  }

  /** MagnField on the upper face of a cell (side +1) is the mean of the
    * reconstruction over that face. */
  lemma UpperFace(cells: CellMap, lo: CellID, r: Coefficients, n: Axis, t: Axis)
    requires lo in cells && lo != INVALID_CELLID
    ensures Get(MagnField(cells, lo, r, n, 1), t) == FaceMean(r, t, n, HALF)
  {
  }

  /** The -n neighbour's coefficients read the cell as its +n neighbour. */
  lemma LowerReadsCell(cells: CellMap, g: NeighbourQuery, cell: CellID, n: Axis)
    requires NeighbourhoodKnown(cells, g, cell)
    requires Lower(g, cell, n) != INVALID_CELLID
    ensures Lower(g, cell, n) in cells
    ensures FaceMean(LowerCoefficients(cells, g, cell, n), n, n, HALF) == cells[cell].cp[BSlot(n)]
  {
    var o := AxisOffset(n, -1);
    assert Known(cells, Nbr(g, cell, o.0, o.1, o.2));
    var lo := Lower(g, cell, n);
    var ups := [LowerUp(g, cell, n, 0), LowerUp(g, cell, n, 1), LowerUp(g, cell, n, 2)];
    forall a: Axis
      ensures Known(cells, ups[a])
    {
      if a != n {
        var u := Add(AxisOffset(n, -1), AxisOffset(a, 1));
        assert Known(cells, Nbr(g, cell, u.0, u.1, u.2));
      }
    }
    var qx, qy, qz := ReadOrZero(cells, ups[0]), ReadOrZero(cells, ups[1]), ReadOrZero(cells, ups[2]);
    assert LowerCoefficients(cells, g, cell, n) == CoefficientsOf(cells[lo], qx, qy, qz);
    FacesReproduced(cells[lo], qx, qy, qz, n);
    assert (if n == 0 then qx else if n == 1 then qy else qz) == cells[cell];
  }

  /** The -n neighbour's side of the face is the mean of its reconstruction
    * over its upper n-face, and its normal component is the cell's B_n. */
  lemma LowerSide(cells: CellMap, g: NeighbourQuery, cell: CellID, n: Axis, t: Axis)
    requires NeighbourhoodKnown(cells, g, cell)
    requires Lower(g, cell, n) != INVALID_CELLID
    ensures var r := LowerCoefficients(cells, g, cell, n);
      Get(MagnField(cells, Lower(g, cell, n), r, n, 1), t) == FaceMean(r, t, n, HALF)
      && Get(MagnField(cells, Lower(g, cell, n), r, n, 1), n) == cells[cell].cp[BSlot(n)]
  {
    LowerReadsCell(cells, g, cell, n);
    var r := LowerCoefficients(cells, g, cell, n);
    UpperFace(cells, Lower(g, cell, n), r, n, t);
    UpperFace(cells, Lower(g, cell, n), r, n, n);
  }

  /** Each component of the face B is the mean of the two reconstructions
    * over the shared face: the cell's at its lower n-face, the -n
    * neighbour's at its upper n-face; the normal component is the cell's
    * own B_n, seen identically from both sides. */
  lemma FaceBIsMeanOfSides(cells: CellMap, g: NeighbourQuery, cell: CellID, n: Axis, t: Axis)
    requires NeighbourhoodKnown(cells, g, cell)
    requires Lower(g, cell, n) != INVALID_CELLID
    ensures Get(FaceB(cells, g, cell, n), t)
      == HALF * (FaceMean(OwnCoefficients(cells, g, cell), t, n, -HALF)
               + FaceMean(LowerCoefficients(cells, g, cell, n), t, n, HALF))
    ensures Get(FaceB(cells, g, cell, n), n) == cells[cell].cp[BSlot(n)]
  {
    OwnSide(cells, g, cell, n, t);
    LowerSide(cells, g, cell, n, t);
  }

  /** Under sound flags, every gate of the face and volume E averages that
    * passes names stored cells only. */
  lemma GatesStored(cells: CellMap, g: NeighbourQuery, flags: map<CellID, Word>, cell: CellID)
    requires NeighbourhoodKnown(cells, g, cell) && FlagsSound(flags, g)
    ensures forall n: Axis :: Has(FlagOf(flags, cell), FaceEMask(n)) ==> AllStored(cells, g, cell, FaceECells(n))
    ensures forall t: Axis :: Has(FlagOf(flags, cell), VolumeEMask(t)) ==> AllStored(cells, g, cell, VolumeECells(t))
  {
    forall n: Axis | Has(FlagOf(flags, cell), FaceEMask(n))
      ensures AllStored(cells, g, cell, FaceECells(n))
    {
      FaceEMaskBuilt(n);
      StoredWhenGated(cells, g, flags, cell, FaceECells(n));
    }
    forall t: Axis | Has(FlagOf(flags, cell), VolumeEMask(t))
      ensures AllStored(cells, g, cell, VolumeECells(t))
    {
      VolumeEMaskBuilt(t);
      StoredWhenGated(cells, g, flags, cell, VolumeECells(t));
    }
  }

  /** The face E of a cell under its own flags, as written and corrected,
    * and its volume E. */
  function CellFaceEAsWritten(cells: CellMap, g: NeighbourQuery, flags: map<CellID, Word>, cell: CellID, n: Axis): Vec
    requires NeighbourhoodKnown(cells, g, cell) && FlagsSound(flags, g)
  {
    GatesStored(cells, g, flags, cell);
    FaceEAsWritten(cells, g, cell, n, FlagOf(flags, cell))
  }

  function CellFaceE(cells: CellMap, g: NeighbourQuery, flags: map<CellID, Word>, cell: CellID, n: Axis): Vec
    requires NeighbourhoodKnown(cells, g, cell) && FlagsSound(flags, g)
  {
    GatesStored(cells, g, flags, cell);
    FaceE(cells, g, cell, n, FlagOf(flags, cell))
  }

  function CellVolumeE(cells: CellMap, g: NeighbourQuery, flags: map<CellID, Word>, cell: CellID, t: Axis): real
    requires NeighbourhoodKnown(cells, g, cell) && FlagsSound(flags, g)
  {
    GatesStored(cells, g, flags, cell);
    VolumeE(cells, g, cell, t, FlagOf(flags, cell))
  }

  /** Slot BXFACEX + 3n + t (or EXFACEX + 3n + t): component t on face n. */
  function FaceSlot(base: nat, n: Axis, t: Axis): nat
  {
    base + 3 * n + t
  }

  /** The face n and component t of offset k = 3n + t within the nine face slots. */
  function FaceOf(k: nat): (nt: (Axis, Axis))
    requires k < 9
    ensures 3 * nt.0 + nt.1 == k
  {
    if k < 3 then (0, k) else if k < 6 then (1, k - 3) else (2, k - 6)
  }

  /** One vector per face, x, y, z. */
  datatype Faces = Faces(fx: Vec, fy: Vec, fz: Vec)

  function OnFaceN(f: Faces, n: Axis): Vec
  {
    if n == 0 then f.fx else if n == 1 then f.fy else f.fz
  }

  /** The nine components of one vector per face, x face first. */
  function Flatten(f: Faces): (v: seq<real>)
    ensures |v| == 9
  {
    [f.fx.x, f.fx.y, f.fx.z, f.fy.x, f.fy.y, f.fy.z, f.fz.x, f.fz.y, f.fz.z]
  }

  /** Parameters x with b in the nine face-B slots and e in the nine face-E
    * slots. */
  function WithFaces(x: Params, b: Faces, e: Faces): (cp: Params)
  {
    x[..BXFACEX] + Flatten(b) + Flatten(e) + x[EXFACEX + 9..]
  }

  /** Component t of face n of b sits in BXFACEX + 3n + t, of e in
    * EXFACEX + 3n + t, and every other slot of x is kept. */
  lemma WithFacesSlots(x: Params, b: Faces, e: Faces, n: Axis, t: Axis)
    ensures WithFaces(x, b, e)[FaceSlot(BXFACEX, n, t)] == Get(OnFaceN(b, n), t)
    ensures WithFaces(x, b, e)[FaceSlot(EXFACEX, n, t)] == Get(OnFaceN(e, n), t)
  {
    var cp := WithFaces(x, b, e);
    assert cp[BXFACEX..EXFACEX] == Flatten(b) && cp[EXFACEX..EXFACEX + 9] == Flatten(e);
    assert cp[FaceSlot(BXFACEX, n, t)] == Flatten(b)[3 * n + t];
    assert cp[FaceSlot(EXFACEX, n, t)] == Flatten(e)[3 * n + t];
  }

  lemma WithFacesKeeps(x: Params, b: Faces, e: Faces, s: nat)
    requires s < SIZE_CELLPARAMS && !(BXFACEX <= s < EXFACEX + 9)
    ensures WithFaces(x, b, e)[s] == x[s]
  {
  }

  /** The E already in the face-E slots of x. */
  function OldFaceE(x: Params, n: Axis): Vec
  {
    Vec(x[FaceSlot(EXFACEX, n, 0)], x[FaceSlot(EXFACEX, n, 1)], x[FaceSlot(EXFACEX, n, 2)])
  }

  /** A cell's parameters after the body of calculateFaceAveragedFields, as
    * written: the face B in BXFACEX..BZFACEZ; the x-, y- and z-face E each
    * written to EXFACEX, EYFACEX, EZFACEX in turn, so those slots keep the
    * z-face E and EXFACEY..EZFACEZ keep their old values. */
  function FaceAveragedAsWritten(cells: CellMap, g: NeighbourQuery, flags: map<CellID, Word>, cell: CellID): (cp: Params)
    requires NeighbourhoodKnown(cells, g, cell) && FlagsSound(flags, g)
  {
    WithFaces(cells[cell].cp, FaceBsAsWritten(cells, g, cell), FaceEsAsWritten(cells, g, flags, cell))
  }

  function FaceBsAsWritten(cells: CellMap, g: NeighbourQuery, cell: CellID): Faces
    requires NeighbourhoodKnown(cells, g, cell)
  {
    Faces(FaceBAsWritten(cells, g, cell, 0), FaceBAsWritten(cells, g, cell, 1), FaceBAsWritten(cells, g, cell, 2))
  }

  /** The face E as the source leaves it: the z-face E in the x-face slots,
    * the y- and z-face slots untouched. */
  function FaceEsAsWritten(cells: CellMap, g: NeighbourQuery, flags: map<CellID, Word>, cell: CellID): Faces
    requires NeighbourhoodKnown(cells, g, cell) && FlagsSound(flags, g)
  {
    var x := cells[cell].cp;
    Faces(CellFaceEAsWritten(cells, g, flags, cell, 2), OldFaceE(x, 1), OldFaceE(x, 2))
  }

  /** A cell's parameters with the face B and each face's E in its own
    * slots. */
  function FaceAveraged(cells: CellMap, g: NeighbourQuery, flags: map<CellID, Word>, cell: CellID): (cp: Params)
    requires NeighbourhoodKnown(cells, g, cell) && FlagsSound(flags, g)
  {
    WithFaces(cells[cell].cp, FaceBs(cells, g, cell), FaceEs(cells, g, flags, cell))
  }

  /** The face B of the three lower faces. */
  function FaceBs(cells: CellMap, g: NeighbourQuery, cell: CellID): Faces
    requires NeighbourhoodKnown(cells, g, cell)
  {
    Faces(FaceB(cells, g, cell, 0), FaceB(cells, g, cell, 1), FaceB(cells, g, cell, 2))
  }

  lemma FaceBsOn(cells: CellMap, g: NeighbourQuery, cell: CellID, n: Axis)
    requires NeighbourhoodKnown(cells, g, cell)
    ensures OnFaceN(FaceBs(cells, g, cell), n) == FaceB(cells, g, cell, n)
  {
    if n == 0 {
    } else if n == 1 {
    } else {
    }
  }

  /** The E of the three lower faces. */
  function FaceEs(cells: CellMap, g: NeighbourQuery, flags: map<CellID, Word>, cell: CellID): Faces
    requires NeighbourhoodKnown(cells, g, cell) && FlagsSound(flags, g)
  {
    Faces(CellFaceE(cells, g, flags, cell, 0), CellFaceE(cells, g, flags, cell, 1), CellFaceE(cells, g, flags, cell, 2))
  }

  lemma FaceEsOn(cells: CellMap, g: NeighbourQuery, flags: map<CellID, Word>, cell: CellID, n: Axis)
    requires NeighbourhoodKnown(cells, g, cell) && FlagsSound(flags, g)
    ensures OnFaceN(FaceEs(cells, g, flags, cell), n) == CellFaceE(cells, g, flags, cell, n)
  {
    if n == 0 {
    } else if n == 1 {
    } else {
    }
  }

  /** The face B slots of the face-averaged parameters hold the mean of the
    * two reconstructions over each lower face; the normal component is the
    * cell's own B_n. */
  lemma FaceAveragedB(cells: CellMap, g: NeighbourQuery, flags: map<CellID, Word>, cell: CellID, n: Axis, t: Axis)
    requires NeighbourhoodKnown(cells, g, cell) && FlagsSound(flags, g)
    requires Lower(g, cell, n) != INVALID_CELLID
    ensures FaceAveraged(cells, g, flags, cell)[FaceSlot(BXFACEX, n, t)]
      == HALF * (FaceMean(OwnCoefficients(cells, g, cell), t, n, -HALF)
               + FaceMean(LowerCoefficients(cells, g, cell, n), t, n, HALF))
  {
    WithFacesSlots(cells[cell].cp, FaceBs(cells, g, cell), FaceEs(cells, g, flags, cell), n, t);
    FaceBsOn(cells, g, cell, n);
    FaceBIsMeanOfSides(cells, g, cell, n, t);
  }

  /** The normal component of the face B is the cell's own B_n. */
  lemma FaceAveragedNormalB(cells: CellMap, g: NeighbourQuery, flags: map<CellID, Word>, cell: CellID, n: Axis)
    requires NeighbourhoodKnown(cells, g, cell) && FlagsSound(flags, g)
    requires Lower(g, cell, n) != INVALID_CELLID
    ensures FaceAveraged(cells, g, flags, cell)[FaceSlot(BXFACEX, n, n)] == cells[cell].cp[BSlot(n)]
  {
    WithFacesSlots(cells[cell].cp, FaceBs(cells, g, cell), FaceEs(cells, g, flags, cell), n, n);
    FaceBsOn(cells, g, cell, n);
    FaceBIsMeanOfSides(cells, g, cell, n, n);
  }

  /** The face E slots hold each face's own E. */
  lemma FaceAveragedE(cells: CellMap, g: NeighbourQuery, flags: map<CellID, Word>, cell: CellID, n: Axis, t: Axis)
    requires NeighbourhoodKnown(cells, g, cell) && FlagsSound(flags, g)
    ensures FaceAveraged(cells, g, flags, cell)[FaceSlot(EXFACEX, n, t)] == Get(CellFaceE(cells, g, flags, cell, n), t)
  {
    WithFacesSlots(cells[cell].cp, FaceBs(cells, g, cell), FaceEs(cells, g, flags, cell), n, t);
    FaceEsOn(cells, g, flags, cell, n);
  }

  /** No slot outside the face B and face E slots changes. */
  lemma FaceAveragedKeeps(cells: CellMap, g: NeighbourQuery, flags: map<CellID, Word>, cell: CellID, s: nat)
    requires NeighbourhoodKnown(cells, g, cell) && FlagsSound(flags, g)
    requires s < SIZE_CELLPARAMS && !(BXFACEX <= s < EXFACEX + 9)
    ensures FaceAveraged(cells, g, flags, cell)[s] == cells[cell].cp[s]
  {
    WithFacesKeeps(cells[cell].cp, FaceBs(cells, g, cell), FaceEs(cells, g, flags, cell), s);
  }

  /** As written, a cell whose whole neighbourhood carries E = (1, 1, 1),
    * with zeros in its face-E slots beforehand, ends with EXFACEY still 0,
    * where the y-face E is 1. */
  lemma FaceEOverwritten(cells: CellMap, g: NeighbourQuery, flags: map<CellID, Word>, cell: CellID)
    requires NeighbourhoodKnown(cells, g, cell) && FlagsSound(flags, g)
    requires forall n: Axis :: Has(FlagOf(flags, cell), FaceEMask(n))
    requires forall s :: EXFACEX <= s < EXFACEX + 9 ==> cells[cell].cp[s] == 0.0
    requires forall o: Offset, t: Axis | -1 <= o.0 <= 1 && -1 <= o.1 <= 1 && -1 <= o.2 <= 1 ::
      CellAt(g, cell, o) in cells && EAt(cells, g, cell, o, t) == 1.0
    ensures FaceAveragedAsWritten(cells, g, flags, cell)[FaceSlot(EXFACEX, 1, 0)] == 0.0
    ensures FaceAveraged(cells, g, flags, cell)[FaceSlot(EXFACEX, 1, 0)] == 1.0
  {
    GatesStored(cells, g, flags, cell);
    var os := FaceECells(1);
    forall q, t: Axis | 0 <= q < 8
      ensures EAt(cells, g, cell, os[q], t) == Get(Vec(1.0, 1.0, 1.0), t)
    {
      assert CellAt(g, cell, os[q]) in cells && EAt(cells, g, cell, os[q], t) == 1.0;
    }
    FaceEUniform(cells, g, cell, 1, FlagOf(flags, cell), Vec(1.0, 1.0, 1.0));
    FaceAveragedE(cells, g, flags, cell, 1, 0);
    FaceAveragedAsWrittenOldE(cells, g, flags, cell, 1, 0);
  }

  /** As written, the y- and z-face E slots keep their old values. */
  lemma FaceAveragedAsWrittenOldE(cells: CellMap, g: NeighbourQuery, flags: map<CellID, Word>, cell: CellID, n: Axis, t: Axis)
    requires NeighbourhoodKnown(cells, g, cell) && FlagsSound(flags, g)
    requires n != 0
    ensures FaceAveragedAsWritten(cells, g, flags, cell)[FaceSlot(EXFACEX, n, t)] == cells[cell].cp[FaceSlot(EXFACEX, n, t)]
  {
    var x := cells[cell].cp;
    OldFaceESlots(x, FaceBsAsWritten(cells, g, cell), CellFaceEAsWritten(cells, g, flags, cell, 2), n, t);
  }

  /** As written, the x-face E slots end with the z-face E. */
  lemma FaceAveragedAsWrittenXSlots(cells: CellMap, g: NeighbourQuery, flags: map<CellID, Word>, cell: CellID, t: Axis)
    requires NeighbourhoodKnown(cells, g, cell) && FlagsSound(flags, g)
    ensures FaceAveragedAsWritten(cells, g, flags, cell)[FaceSlot(EXFACEX, 0, t)] == Get(CellFaceEAsWritten(cells, g, flags, cell, 2), t)
  {
    var x := cells[cell].cp;
    WithFacesSlots(x, FaceBsAsWritten(cells, g, cell), Faces(CellFaceEAsWritten(cells, g, flags, cell, 2), OldFaceE(x, 1), OldFaceE(x, 2)), 0, t);
  }

  /** Writing back the old y- and z-face E leaves those slots as they were. */
  lemma OldFaceESlots(x: Params, b: Faces, v: Vec, n: Axis, t: Axis)
    requires n != 0
    ensures WithFaces(x, b, Faces(v, OldFaceE(x, 1), OldFaceE(x, 2)))[FaceSlot(EXFACEX, n, t)] == x[FaceSlot(EXFACEX, n, t)]
  {
    WithFacesSlots(x, b, Faces(v, OldFaceE(x, 1), OldFaceE(x, 2)), n, t);
  }

  /** Parameters x with b in BXVOL..BZVOL and e in EXVOL..EZVOL. */
  function WithVolume(x: Params, b: Vec, e: Vec): (cp: Params)
  {
    x[..BXVOL] + [b.x, b.y, b.z, e.x, e.y, e.z] + x[EZVOL + 1..]
  }

  lemma WithVolumeSlots(x: Params, b: Vec, e: Vec, c: Axis)
    ensures WithVolume(x, b, e)[BXVOL + c] == Get(b, c)
    ensures WithVolume(x, b, e)[EXVOL + c] == Get(e, c)
  {
  }

  lemma WithVolumeKeeps(x: Params, b: Vec, e: Vec, s: nat)
    requires s < SIZE_CELLPARAMS && !(BXVOL <= s <= EZVOL)
    ensures WithVolume(x, b, e)[s] == x[s]
  {
  }

  /** A cell's parameters after the body of calculateVolumeAveragedFields:
    * the volume B from the constant terms of the reconstruction and the
    * gated volume E. */
  function VolumeAveraged(cells: CellMap, g: NeighbourQuery, flags: map<CellID, Word>, cell: CellID): (cp: Params)
    requires NeighbourhoodKnown(cells, g, cell) && FlagsSound(flags, g)
  {
    var r := OwnCoefficients(cells, g, cell);
    WithVolume(cells[cell].cp, Vec(r.a_0, r.b_0, r.c_0),
      Vec(CellVolumeE(cells, g, flags, cell, 0), CellVolumeE(cells, g, flags, cell, 1), CellVolumeE(cells, g, flags, cell, 2)))
  }

  /** The volume B is the mean of the reconstructed field over the cell and
    * the volume E the gated mean of the four edge cells. */
  lemma VolumeAveragedSlots(cells: CellMap, g: NeighbourQuery, flags: map<CellID, Word>, cell: CellID, c: Axis)
    requires NeighbourhoodKnown(cells, g, cell) && FlagsSound(flags, g)
    ensures VolumeAveraged(cells, g, flags, cell)[BXVOL + c] == VolumeMean(OwnCoefficients(cells, g, cell), c)
    ensures VolumeAveraged(cells, g, flags, cell)[EXVOL + c] == CellVolumeE(cells, g, flags, cell, c)
  {
    var r := OwnCoefficients(cells, g, cell);
    var b := Vec(r.a_0, r.b_0, r.c_0);
    var e := Vec(CellVolumeE(cells, g, flags, cell, 0), CellVolumeE(cells, g, flags, cell, 1), CellVolumeE(cells, g, flags, cell, 2));
    assert VolumeAveraged(cells, g, flags, cell) == WithVolume(cells[cell].cp, b, e);
    WithVolumeSlots(cells[cell].cp, b, e, c);
    VolumeMeanIsConst(r, c);
    assert Get(b, c) == Const(r, c);
    assert Get(e, c) == CellVolumeE(cells, g, flags, cell, c);
  }

  /** No slot outside BXVOL..EZVOL changes. */
  lemma VolumeAveragedKeeps(cells: CellMap, g: NeighbourQuery, flags: map<CellID, Word>, cell: CellID, s: nat)
    requires NeighbourhoodKnown(cells, g, cell) && FlagsSound(flags, g)
    requires s < SIZE_CELLPARAMS && !(BXVOL <= s <= EZVOL)
    ensures VolumeAveraged(cells, g, flags, cell)[s] == cells[cell].cp[s]
  {
    var r := OwnCoefficients(cells, g, cell);
    var b := Vec(r.a_0, r.b_0, r.c_0);
    var e := Vec(CellVolumeE(cells, g, flags, cell, 0), CellVolumeE(cells, g, flags, cell, 1), CellVolumeE(cells, g, flags, cell, 2));
    assert VolumeAveraged(cells, g, flags, cell) == WithVolume(cells[cell].cp, b, e);
    WithVolumeKeeps(cells[cell].cp, b, e, s);
  }
}
