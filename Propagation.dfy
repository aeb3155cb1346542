/** The face-B update of propagateMagneticField: each face-averaged B
  * component advances by the circulation of the edge-averaged E around its
  * face (constrained transport). */
module FieldPropagation {

  import opened Bits
  import opened NeighbourTopology
  import opened CellState

  /** The circulation of E around a face normal to c, taken in the positive
    * sense a then b (a = Next(c), b = Next(a)); the face spans da by db, its
    * edges carry eA (at its lower b side), eAaboveB (upper b side), eB (lower
    * a side) and eBaboveA (upper a side). */
  function Circulation(da: real, db: real, eA: real, eAaboveB: real, eB: real, eBaboveA: real): real
  {
    da * eA + db * eBaboveA - da * eAaboveB - db * eB
  }

  /** The updated face B_c after dt. */
  function FaceUpdate(bc: real, dt: real, da: real, db: real,
                      eA: real, eAaboveB: real, eB: real, eBaboveA: real): real
    requires da != 0.0 && db != 0.0
  {
    bc + dt / db * (eAaboveB - eA) + dt / da * (eB - eBaboveA)
  }

  lemma QuotientTimes(dt: real, d: real, other: real, x: real)
    requires d != 0.0
    ensures dt / d * x * (other * d) == dt * other * x
  {
    calc {
      dt / d * x * (other * d);
      == (dt / d * d) * other * x;
      == dt * other * x;
    }
  }

  /** Faraday's law in integral form: the change of the magnetic flux
    * through the face equals -dt times the circulation of E around it. */
  lemma FaceUpdateIsFaraday(bc: real, dt: real, da: real, db: real,
                            eA: real, eAaboveB: real, eB: real, eBaboveA: real)
    requires da != 0.0 && db != 0.0
    ensures (FaceUpdate(bc, dt, da, db, eA, eAaboveB, eB, eBaboveA) - bc) * (da * db)
            == -dt * Circulation(da, db, eA, eAaboveB, eB, eBaboveA)
  {
    QuotientTimes(dt, db, da, eAaboveB - eA);
    QuotientTimes(dt, da, db, eB - eBaboveA);
    assert da * db == db * da;
  }

  /** With the same E on all four edges B does not change. */
  lemma UniformEKeepsFace(bc: real, dt: real, da: real, db: real, ea: real, eb: real)
    requires da != 0.0 && db != 0.0
    ensures FaceUpdate(bc, dt, da, db, ea, ea, eb, eb) == bc
  {
  }

  // ---------------------------------------------------------------------
  // One cell

  /** The cell sizes the update divides by are nonzero. */
  predicate Sized(x: CellData)
  {
    x.cp[DX] != 0.0 && x.cp[DY] != 0.0 && x.cp[DZ] != 0.0
  }

  /** The cells at +x, +y and +z of a cell. */
  datatype Above = Above(px: CellData, py: CellData, pz: CellData)

  function Up(n: Above, a: Axis): CellData
  {
    if a == 0 then n.px else if a == 1 then n.py else n.pz
  }

  /** The new B_c of a cell: its face spans its own sizes along a and b, the
    * upper edges are the E of its +b and +a neighbours. */
  function NewB(x: CellData, n: Above, c: Axis, dt: real): real
    requires Sized(x)
  {
    var a := Next(c);
    var b := Next(a);
    FaceUpdate(x.cp[BSlot(c)], dt, x.cp[SizeSlot(a)], x.cp[SizeSlot(b)],
               x.cp[ESlot(a)], Up(n, b).cp[ESlot(a)], x.cp[ESlot(b)], Up(n, a).cp[ESlot(b)])
  }

  /** The capability that gates B_c. */
  function PropagateCap(c: Axis): Capability
  {
    if c == 0 then PropagateBX else if c == 1 then PropagateBY else PropagateBZ
  }

  /** The gate (flag & PROPAGATE_Bc) == PROPAGATE_Bc. */
  predicate Propagates(flag: Word, c: Axis)
  {
    Has(flag, CapabilityMask(PropagateCap(c)))
  }

  /** B_c after the gated update. */
  function GatedB(x: CellData, n: Above, flag: Word, c: Axis, dt: real): real
    requires Sized(x)
  {
    if Propagates(flag, c) then NewB(x, n, c, dt) else x.cp[BSlot(c)]
  }

  /** propagateMagneticField on one cell: the gated updates of BX, BY and BZ,
    * in that order. */
  function PropagatedCell(x: CellData, n: Above, flag: Word, dt: real): (y: CellData)
    requires Sized(x)
    ensures y.der == x.der
    ensures forall s :: 0 <= s < SIZE_CELLPARAMS && s != BX && s != BY && s != BZ ==> y.cp[s] == x.cp[s]
    ensures y.cp[BX] == GatedB(x, n, flag, 0, dt)
    ensures y.cp[BY] == GatedB(x, n, flag, 1, dt)
    ensures y.cp[BZ] == GatedB(x, n, flag, 2, dt)
  {
    CellData(x.cp[BX := GatedB(x, n, flag, 0, dt)][BY := GatedB(x, n, flag, 1, dt)][BZ := GatedB(x, n, flag, 2, dt)], x.der)
  }

  /** The area of the cell's face normal to c. */
  function FaceArea(x: CellData, c: Axis): real
  {
    x.cp[SizeSlot(Next(c))] * x.cp[SizeSlot(Next(Next(c)))]
  }

  /** The circulation of E around the cell's face normal to c. */
  function CirculationAt(x: CellData, n: Above, c: Axis): real
  {
    var a := Next(c);
    var b := Next(a);
    Circulation(x.cp[SizeSlot(a)], x.cp[SizeSlot(b)],
                x.cp[ESlot(a)], Up(n, b).cp[ESlot(a)], x.cp[ESlot(b)], Up(n, a).cp[ESlot(b)])
  }

  lemma NewBIsFaraday(x: CellData, n: Above, c: Axis, dt: real)
    requires Sized(x)
    ensures (NewB(x, n, c, dt) - x.cp[BSlot(c)]) * FaceArea(x, c) == -dt * CirculationAt(x, n, c)
  {
    var a := Next(c);
    var b := Next(a);
    FaceUpdateIsFaraday(x.cp[BSlot(c)], dt, x.cp[SizeSlot(a)], x.cp[SizeSlot(b)],
                        x.cp[ESlot(a)], Up(n, b).cp[ESlot(a)], x.cp[ESlot(b)], Up(n, a).cp[ESlot(b)]);
  }

  lemma GatedComponent(x: CellData, n: Above, flag: Word, c: Axis, dt: real)
    requires Sized(x)
    ensures PropagatedCell(x, n, flag, dt).cp[BSlot(c)] == GatedB(x, n, flag, c, dt)
  {
  }

  /** A component whose gate fails keeps its value; one whose gate holds
    * changes its flux by -dt times the circulation of E around its face. */
  lemma PropagatedComponent(x: CellData, n: Above, flag: Word, c: Axis, dt: real)
    requires Sized(x)
    ensures !Propagates(flag, c) ==> PropagatedCell(x, n, flag, dt).cp[BSlot(c)] == x.cp[BSlot(c)]
    ensures Propagates(flag, c) ==>
      (PropagatedCell(x, n, flag, dt).cp[BSlot(c)] - x.cp[BSlot(c)]) * FaceArea(x, c) == -dt * CirculationAt(x, n, c)
  {
    GatedComponent(x, n, flag, c, dt);
    if Propagates(flag, c) {
      NewBIsFaraday(x, n, c, dt);
    }
  }

  /** E equal in the cell and its upper neighbours leaves the cell unchanged. */
  lemma UniformEKeepsCell(x: CellData, n: Above, flag: Word, dt: real)
    requires Sized(x)
    requires forall a: Axis, b: Axis :: Up(n, b).cp[ESlot(a)] == x.cp[ESlot(a)]
    ensures PropagatedCell(x, n, flag, dt) == x
  {
    var y := PropagatedCell(x, n, flag, dt);
    forall c: Axis
      ensures y.cp[BSlot(c)] == x.cp[BSlot(c)]
    {
      var a := Next(c);
      var b := Next(a);
      assert Up(n, b).cp[ESlot(a)] == x.cp[ESlot(a)];
      assert Up(n, a).cp[ESlot(b)] == x.cp[ESlot(b)];
      UniformEKeepsFace(x.cp[BSlot(c)], dt, x.cp[SizeSlot(a)], x.cp[SizeSlot(b)], x.cp[ESlot(a)], x.cp[ESlot(b)]);
    }
    assert y.cp[BX] == x.cp[BSlot(0)];
    assert y.cp[BY] == x.cp[BSlot(1)];
    assert y.cp[BZ] == x.cp[BSlot(2)];
    assert y.cp == x.cp;
  }

  // ---------------------------------------------------------------------
  // Constrained transport on a lattice

  /** A lattice position. */
  type Pos = (int, int, int)

  function Plus(p: Pos, a: Axis): Pos
  {
    if a == 0 then (p.0 + 1, p.1, p.2) else if a == 1 then (p.0, p.1 + 1, p.2) else (p.0, p.1, p.2 + 1)
  }

  /** Face B (or edge E) component a of the cell at each position. */
  type Field = (Axis, Pos) -> real

  /** Uniform cell sizes along x, y and z. */
  datatype Spacing = Spacing(hx: real, hy: real, hz: real)

  predicate Proper(h: Spacing)
  {
    h.hx != 0.0 && h.hy != 0.0 && h.hz != 0.0
  }

  function Size(h: Spacing, a: Axis): real
  {
    if a == 0 then h.hx else if a == 1 then h.hy else h.hz
  }

  /** Every face updated at once, as PropagatedCell updates each cell whose
    * gates all hold. */
  function Advanced(B: Field, E: Field, h: Spacing, dt: real, c: Axis, p: Pos): real
    requires Proper(h)
  {
    var a := Next(c);
    var b := Next(a);
    FaceUpdate(B(c, p), dt, Size(h, a), Size(h, b), E(a, p), E(a, Plus(p, b)), E(b, p), E(b, Plus(p, a)))
  }

  /** The net magnetic flux out of the cell at p: through each pair of
    * opposite faces, the upper face's B (the neighbour's own lower face)
    * minus the cell's own, times the face area. */
  function NetFlux(bx0: real, bx1: real, by0: real, by1: real, bz0: real, bz1: real, h: Spacing): real
  {
    (bx1 - bx0) * (h.hy * h.hz) + (by1 - by0) * (h.hz * h.hx) + (bz1 - bz0) * (h.hx * h.hy)
  }

  function FluxAt(B: Field, h: Spacing, p: Pos): real
  {
    NetFlux(B(0, p), B(0, Plus(p, 0)), B(1, p), B(1, Plus(p, 1)), B(2, p), B(2, Plus(p, 2)), h)
  }

  function FluxAfter(B: Field, E: Field, h: Spacing, dt: real, p: Pos): real
    requires Proper(h)
  {
    NetFlux(Advanced(B, E, h, dt, 0, p), Advanced(B, E, h, dt, 0, Plus(p, 0)),
            Advanced(B, E, h, dt, 1, p), Advanced(B, E, h, dt, 1, Plus(p, 1)),
            Advanced(B, E, h, dt, 2, p), Advanced(B, E, h, dt, 2, Plus(p, 2)), h)
  }

  /** The flux change of the face c at q, from Faraday's law. */
  lemma FaceFluxChange(B: Field, E: Field, h: Spacing, dt: real, c: Axis, q: Pos)
    requires Proper(h)
    ensures var a := Next(c);
      var b := Next(a);
      (Advanced(B, E, h, dt, c, q) - B(c, q)) * (Size(h, a) * Size(h, b))
      == -dt * Circulation(Size(h, a), Size(h, b), E(a, q), E(a, Plus(q, b)), E(b, q), E(b, Plus(q, a)))
  {
    var a := Next(c);
    var b := Next(a);
    FaceUpdateIsFaraday(B(c, q), dt, Size(h, a), Size(h, b), E(a, q), E(a, Plus(q, b)), E(b, q), E(b, Plus(q, a)));
  }

  /** The net flux is linear in the six face values. */
  lemma NetFluxDifference(bx0: real, bx1: real, by0: real, by1: real, bz0: real, bz1: real,
                          cx0: real, cx1: real, cy0: real, cy1: real, cz0: real, cz1: real, h: Spacing)
    ensures NetFlux(cx0, cx1, cy0, cy1, cz0, cz1, h) - NetFlux(bx0, bx1, by0, by1, bz0, bz1, h)
      == ((cx1 - bx1) - (cx0 - bx0)) * (h.hy * h.hz) + ((cy1 - by1) - (cy0 - by0)) * (h.hz * h.hx)
         + ((cz1 - bz1) - (cz0 - bz0)) * (h.hx * h.hy)
  {
  }

  /** Constrained transport: on a lattice of uniform spacing, updating every
    * face leaves the net magnetic flux out of every cell, and so the
    * discrete divergence of B, unchanged. */
  lemma FluxPreserved(B: Field, E: Field, h: Spacing, dt: real, p: Pos)
    requires Proper(h)
    ensures FluxAfter(B, E, h, dt, p) == FluxAt(B, h, p)
  {
    FaceFluxChange(B, E, h, dt, 0, p);
    FaceFluxChange(B, E, h, dt, 0, Plus(p, 0));
    FaceFluxChange(B, E, h, dt, 1, p);
    FaceFluxChange(B, E, h, dt, 1, Plus(p, 1));
    FaceFluxChange(B, E, h, dt, 2, p);
    FaceFluxChange(B, E, h, dt, 2, Plus(p, 2));
    assert Plus(Plus(p, 0), 1) == Plus(Plus(p, 1), 0);
    assert Plus(Plus(p, 1), 2) == Plus(Plus(p, 2), 1);
    assert Plus(Plus(p, 2), 0) == Plus(Plus(p, 0), 2);
    NetFluxDifference(B(0, p), B(0, Plus(p, 0)), B(1, p), B(1, Plus(p, 1)), B(2, p), B(2, Plus(p, 2)),
                      Advanced(B, E, h, dt, 0, p), Advanced(B, E, h, dt, 0, Plus(p, 0)),
                      Advanced(B, E, h, dt, 1, p), Advanced(B, E, h, dt, 1, Plus(p, 1)),
                      Advanced(B, E, h, dt, 2, p), Advanced(B, E, h, dt, 2, Plus(p, 2)), h);
  }
}
