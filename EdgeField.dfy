/** The upwinded edge-averaged electric field of calculateEdgeElectricFieldX,
  * ...Y and ...Z.
  *
  * The three functions are one computation in a rotated frame. For the edge
  * along axis e, a = Next(e) and b = Next(a) are the transverse axes
  * (x: a = y, b = z; y: a = z, b = x; z: a = x, b = y). The four cells around
  * the edge are SW (the cell itself), SE (one step back along a), NW (one
  * step back along b) and NE (one step back along both). Each corner gets a
  * second-order estimate of E_e, and the four estimates are blended with
  * weights built from the largest characteristic speeds in the +a, -a, +b
  * and -b directions, plus diffusive terms. */
module EdgeElectricField {

  import opened NeighbourTopology
  import opened CellState

  const HALF: real := 0.5
  const SIXTH: real := 1.0 / 6.0
  /** 1.0e-30, added to each denominator. */
  const EPS: real := 0.000000000000000000000000000001

  function Max(x: real, y: real): real
  {
    if x >= y then x else y
  }

  // ---------------------------------------------------------------------
  // Characteristic speeds

  /** The largest characteristic speeds of an edge along +a, -a, +b and -b. */
  datatype Speeds = Speeds(aPos: real, aNeg: real, bPos: real, bNeg: real)

  /** What one corner contributes to the speeds: its velocity along a and b
    * and its fast magnetosonic speed c. */
  datatype Sample = Sample(va: real, vb: real, c: real)

  predicate NonNegative(sp: Speeds)
  {
    sp.aPos >= 0.0 && sp.aNeg >= 0.0 && sp.bPos >= 0.0 && sp.bNeg >= 0.0
  }

  /** m is the largest of 0 and the values xs. */
  predicate IsPeak(m: real, xs: seq<real>)
  {
    && m >= 0.0
    && (forall i :: 0 <= i < |xs| ==> xs[i] <= m)
    && (m == 0.0 || exists i :: 0 <= i < |xs| && xs[i] == m)
  }

  /** The speeds the source intends: each one the largest of 0 and the four
    * corners' v + c (positive direction) or -v + c (negative direction). */
  predicate IsEnvelope(sp: Speeds, sw: Sample, se: Sample, nw: Sample, ne: Sample)
  {
    && IsPeak(sp.aPos, [sw.va + sw.c, se.va + se.c, nw.va + nw.c, ne.va + ne.c])
    && IsPeak(sp.aNeg, [-sw.va + sw.c, -se.va + se.c, -nw.va + nw.c, -ne.va + ne.c])
    && IsPeak(sp.bPos, [sw.vb + sw.c, se.vb + se.c, nw.vb + nw.c, ne.vb + ne.c])
    && IsPeak(sp.bNeg, [-sw.vb + sw.c, -se.vb + se.c, -nw.vb + nw.c, -ne.vb + ne.c])
  }

  /** Two peaks of the same values are equal: the envelope is unique. */
  lemma PeakUnique(m: real, n: real, xs: seq<real>)
    requires IsPeak(m, xs) && IsPeak(n, xs)
    ensures m == n
  {
    if m != 0.0 {
      var i :| 0 <= i < |xs| && xs[i] == m;
      assert m <= n;
    }
    if n != 0.0 {
      var i :| 0 <= i < |xs| && xs[i] == n;
      assert n <= m;
    }
  }

  lemma EnvelopeUnique(sp: Speeds, sq: Speeds, sw: Sample, se: Sample, nw: Sample, ne: Sample)
    requires IsEnvelope(sp, sw, se, nw, ne) && IsEnvelope(sq, sw, se, nw, ne)
    ensures sp == sq
  {
    PeakUnique(sp.aPos, sq.aPos, [sw.va + sw.c, se.va + se.c, nw.va + nw.c, ne.va + ne.c]);
    PeakUnique(sp.aNeg, sq.aNeg, [-sw.va + sw.c, -se.va + se.c, -nw.va + nw.c, -ne.va + ne.c]);
    PeakUnique(sp.bPos, sq.bPos, [sw.vb + sw.c, se.vb + se.c, nw.vb + nw.c, ne.vb + ne.c]);
    PeakUnique(sp.bNeg, sq.bNeg, [-sw.vb + sw.c, -se.vb + se.c, -nw.vb + nw.c, -ne.vb + ne.c]);
  }

  /** The running maximum of four corner values, started at ZERO. */
  function Peak(x0: real, x1: real, x2: real, x3: real): (m: real)
    ensures IsPeak(m, [x0, x1, x2, x3])
  {
    RunningPeak(x0, x1, x2, x3);
    Max(Max(Max(Max(0.0, x0), x1), x2), x3)
  }

  /** A running maximum started at ZERO is the peak of the values it saw. */
  lemma RunningPeak(x0: real, x1: real, x2: real, x3: real)
    ensures IsPeak(Max(Max(Max(Max(0.0, x0), x1), x2), x3), [x0, x1, x2, x3])
  {
    var xs := [x0, x1, x2, x3];
    var m := Max(Max(Max(Max(0.0, x0), x1), x2), x3);
    if m != 0.0 {
      if m == x3 {
        assert xs[3] == m;
      } else if m == x2 {
        assert xs[2] == m;
      } else if m == x1 {
        assert xs[1] == m;
      } else {
        assert xs[0] == m;
      }
    }
  }

  /** The speeds as a function of the four corners. */
  function Envelope(sw: Sample, se: Sample, nw: Sample, ne: Sample): (sp: Speeds)
    ensures IsEnvelope(sp, sw, se, nw, ne) && NonNegative(sp)
  {
    Speeds(Peak(sw.va + sw.c, se.va + se.c, nw.va + nw.c, ne.va + ne.c),
           Peak(-sw.va + sw.c, -se.va + se.c, -nw.va + nw.c, -ne.va + ne.c),
           Peak(sw.vb + sw.c, se.vb + se.c, nw.vb + nw.c, ne.vb + ne.c),
           Peak(-sw.vb + sw.c, -se.vb + se.c, -nw.vb + nw.c, -ne.vb + ne.c))
  }

  /** The speed updates of the edge functions, corner by corner, in the
    * source's order: the SW corner starts each maximum at ZERO and SE, NW, NE
    * raise it. */
  method UpwindSpeeds(sw: Sample, se: Sample, nw: Sample, ne: Sample) returns (sp: Speeds)
    ensures sp == Envelope(sw, se, nw, ne)
  {
    var aNeg := Max(0.0, -sw.va + sw.c);
    var aPos := Max(0.0, sw.va + sw.c);
    var bNeg := Max(0.0, -sw.vb + sw.c);
    var bPos := Max(0.0, sw.vb + sw.c);
    aNeg := Max(aNeg, -se.va + se.c);
    aPos := Max(aPos, se.va + se.c);
    bNeg := Max(bNeg, -se.vb + se.c);
    bPos := Max(bPos, se.vb + se.c);
    aNeg := Max(aNeg, -nw.va + nw.c);
    aPos := Max(aPos, nw.va + nw.c);
    bNeg := Max(bNeg, -nw.vb + nw.c);
    bPos := Max(bPos, nw.vb + nw.c);
    aNeg := Max(aNeg, -ne.va + ne.c);
    aPos := Max(aPos, ne.va + ne.c);
    bNeg := Max(bNeg, -ne.vb + ne.c);
    bPos := Max(bPos, ne.vb + ne.c);
    sp := Speeds(aPos, aNeg, bPos, bNeg);
  }

  /** The y-edge speeds as written: at the SE corner both negative speeds
    * are raised with -v - c instead of -v + c. */
  function EnvelopeAsWrittenY(sw: Sample, se: Sample, nw: Sample, ne: Sample): (sp: Speeds)
    ensures NonNegative(sp)
  {
    Speeds(Peak(sw.va + sw.c, se.va + se.c, nw.va + nw.c, ne.va + ne.c),
           Peak(-sw.va + sw.c, -se.va - se.c, -nw.va + nw.c, -ne.va + ne.c),
           Peak(sw.vb + sw.c, se.vb + se.c, nw.vb + nw.c, ne.vb + ne.c),
           Peak(-sw.vb + sw.c, -se.vb - se.c, -nw.vb + nw.c, -ne.vb + ne.c))
  }

  /** A corner at rest with wave speed 1 (the SE corner here) sends a wave
    * backward along a at speed 1; the as-written y-edge speeds miss it. */
  lemma SlippedSpeedMissesCorner()
    ensures EnvelopeAsWrittenY(Sample(0.0, 0.0, 0.0), Sample(0.0, 0.0, 1.0), Sample(0.0, 0.0, 0.0), Sample(0.0, 0.0, 0.0)).aNeg == 0.0
    ensures Envelope(Sample(0.0, 0.0, 0.0), Sample(0.0, 0.0, 1.0), Sample(0.0, 0.0, 0.0), Sample(0.0, 0.0, 0.0)).aNeg == 1.0
  {
    assert Peak(0.0, -1.0, 0.0, 0.0) == 0.0;
    assert Peak(0.0, 1.0, 0.0, 0.0) == 1.0;
  }

  // ---------------------------------------------------------------------
  // Corner estimates

  /** A face-centred B component as an edge corner sees it: its value and
    * its derivatives across the other transverse axis and along the edge. */
  datatype FaceB = FaceB(b: real, dAcross: real, dAlong: real)

  /** A corner cell's flow in the edge frame: V_a, V_b and their derivatives
    * along a, b and the edge axis e. */
  datatype Flow = Flow(va: real, vb: real,
                       dVa_da: real, dVa_db: real, dVa_de: real,
                       dVb_da: real, dVb_db: real, dVb_de: real)

  /** The first-order corner estimate B_a V_b - B_b V_a. */
  function FirstOrderCornerE(fa: FaceB, fb: FaceB, f: Flow): real
  {
    fa.b * f.vb - fb.b * f.va
  }

  /** The second-order corner estimate, for a corner on side sa of axis a and
    * side sb of axis b (-1.0 or +1.0: SW = (-,-), SE = (+,-), NW = (-,+),
    * NE = (+,+)); fa is the a-face the corner reads, fb its b-face. */
  function CornerE(fa: FaceB, fb: FaceB, f: Flow, sa: real, sb: real): real
  {
    FirstOrderCornerE(fa, fb, f)
    + HALF * ((fa.b + sb * HALF * fa.dAcross) * (sa * f.dVb_da + sb * f.dVb_db)
              + sb * fa.dAcross * f.vb + SIXTH * fa.dAlong * f.dVb_de)
    - HALF * ((fb.b + sa * HALF * fb.dAcross) * (sa * f.dVa_da + sb * f.dVa_db)
              + sa * fb.dAcross * f.va + SIXTH * fb.dAlong * f.dVa_de)
  }

  /** The same flow described with the transverse axes exchanged. */
  function SwapFlow(f: Flow): Flow
  {
    Flow(f.vb, f.va, f.dVb_db, f.dVb_da, f.dVb_de, f.dVa_db, f.dVa_da, f.dVa_de)
  }

  /** Exchanging the roles of a and b negates the corner estimate, as for
    * the component of -V x B it approximates: the six copies of the formula
    * in the source are one formula. */
  lemma CornerAntisymmetric(fa: FaceB, fb: FaceB, f: Flow, sa: real, sb: real)
    ensures CornerE(fb, fa, SwapFlow(f), sb, sa) == -CornerE(fa, fb, f, sa, sb)
  {
  }

  predicate FaceFlat(x: FaceB) { x.dAcross == 0.0 && x.dAlong == 0.0 }

  predicate FlowFlat(f: Flow)
  {
    f.dVa_da == 0.0 && f.dVa_db == 0.0 && f.dVa_de == 0.0 &&
    f.dVb_da == 0.0 && f.dVb_db == 0.0 && f.dVb_de == 0.0
  }

  /** With all derivatives zero the second-order corrections vanish. */
  lemma FlatCornerIsFirstOrder(fa: FaceB, fb: FaceB, f: Flow, sa: real, sb: real)
    requires FaceFlat(fa) && FaceFlat(fb) && FlowFlat(f)
    ensures CornerE(fa, fb, f, sa, sb) == fa.b * f.vb - fb.b * f.va
  {
  }

  // ---------------------------------------------------------------------
  // Blending

  /** The weight denominator without EPS. */
  function Spread(sp: Speeds): real
  {
    (sp.aPos + sp.aNeg) * (sp.bPos + sp.bNeg)
  }

  lemma SpreadNonNegative(sp: Speeds)
    requires NonNegative(sp)
    ensures Spread(sp) >= 0.0
  {
    ProductNonNegative(sp.aPos + sp.aNeg, sp.bPos + sp.bNeg);
  }

  lemma ProductNonNegative(x: real, y: real)
    requires x >= 0.0 && y >= 0.0
    ensures x * y >= 0.0
  {
  }

  /** The upwinded blend of the four corner estimates. */
  function Upwinded(sp: Speeds, eNE: real, eSE: real, eNW: real, eSW: real): real
    requires NonNegative(sp)
  {
    SpreadNonNegative(sp);
    (sp.aPos * sp.bPos * eNE + sp.aPos * sp.bNeg * eSE + sp.aNeg * sp.bPos * eNW + sp.aNeg * sp.bNeg * eSW)
      / (Spread(sp) + EPS)
  }

  /** The four corner weights sum to the denominator minus EPS. */
  lemma WeightsSum(sp: Speeds)
    ensures sp.aPos * sp.bPos + sp.aPos * sp.bNeg + sp.aNeg * sp.bPos + sp.aNeg * sp.bNeg == Spread(sp)
  {
  }

  /** A mean weighted by w1..w4 >= 0 of values in [lo, hi], scaled by the
    * total weight, lies in the scaled interval. */
  lemma WeightedBetween(w1: real, w2: real, w3: real, w4: real,
                        e1: real, e2: real, e3: real, e4: real, lo: real, hi: real)
    requires w1 >= 0.0 && w2 >= 0.0 && w3 >= 0.0 && w4 >= 0.0
    requires lo <= e1 <= hi && lo <= e2 <= hi && lo <= e3 <= hi && lo <= e4 <= hi
    ensures (w1 + w2 + w3 + w4) * lo <= w1 * e1 + w2 * e2 + w3 * e3 + w4 * e4 <= (w1 + w2 + w3 + w4) * hi
  {
    WeightedAbove(w1, w2, w3, w4, e1, e2, e3, e4, lo);
    WeightedAbove(w1, w2, w3, w4, -e1, -e2, -e3, -e4, -hi);
    assert w1 * -e1 + w2 * -e2 + w3 * -e3 + w4 * -e4 == -(w1 * e1 + w2 * e2 + w3 * e3 + w4 * e4);
    assert (w1 + w2 + w3 + w4) * -hi == -((w1 + w2 + w3 + w4) * hi);
  }

  lemma WeightedAbove(w1: real, w2: real, w3: real, w4: real,
                      e1: real, e2: real, e3: real, e4: real, lo: real)
    requires w1 >= 0.0 && w2 >= 0.0 && w3 >= 0.0 && w4 >= 0.0
    requires lo <= e1 && lo <= e2 && lo <= e3 && lo <= e4
    ensures (w1 + w2 + w3 + w4) * lo <= w1 * e1 + w2 * e2 + w3 * e3 + w4 * e4
  {
    ScaledAbove(w1, e1, lo);
    ScaledAbove(w2, e2, lo);
    ScaledAbove(w3, e3, lo);
    ScaledAbove(w4, e4, lo);
    SumTimes(w1, w2, w3, w4, lo);
    SumsOrdered(w1 * lo, w2 * lo, w3 * lo, w4 * lo, w1 * e1, w2 * e2, w3 * e3, w4 * e4);
  }

  lemma ScaledAbove(w: real, x: real, lo: real)
    requires w >= 0.0 && lo <= x
    ensures w * lo <= w * x
  {
  }

  lemma SumsOrdered(a1: real, a2: real, a3: real, a4: real, b1: real, b2: real, b3: real, b4: real)
    requires a1 <= b1 && a2 <= b2 && a3 <= b3 && a4 <= b4
    ensures a1 + a2 + a3 + a4 <= b1 + b2 + b3 + b4
  {
  }

  lemma SumTimes(w1: real, w2: real, w3: real, w4: real, x: real)
    ensures (w1 + w2 + w3 + w4) * x == w1 * x + w2 * x + w3 * x + w4 * x
  {
  }

  lemma DivTimes(num: real, d: real)
    requires d > 0.0
    ensures num / d * d == num
  {
  }

  /** The blend is a weighted mean scaled by Spread / (Spread + EPS): when
    * every corner estimate lies in [lo, hi], the blend times the denominator
    * lies in [Spread * lo, Spread * hi]. */
  lemma UpwindedBetween(sp: Speeds, eNE: real, eSE: real, eNW: real, eSW: real, lo: real, hi: real)
    requires NonNegative(sp)
    requires lo <= eNE <= hi && lo <= eSE <= hi && lo <= eNW <= hi && lo <= eSW <= hi
    ensures Spread(sp) * lo <= Upwinded(sp, eNE, eSE, eNW, eSW) * (Spread(sp) + EPS) <= Spread(sp) * hi
  {
    ProductNonNegative(sp.aPos, sp.bPos);
    ProductNonNegative(sp.aPos, sp.bNeg);
    ProductNonNegative(sp.aNeg, sp.bPos);
    ProductNonNegative(sp.aNeg, sp.bNeg);
    WeightedBetween(sp.aPos * sp.bPos, sp.aPos * sp.bNeg, sp.aNeg * sp.bPos, sp.aNeg * sp.bNeg,
                    eNE, eSE, eNW, eSW, lo, hi);
    WeightsSum(sp);
    SpreadNonNegative(sp);
    DivTimes(sp.aPos * sp.bPos * eNE + sp.aPos * sp.bNeg * eSE + sp.aNeg * sp.bPos * eNW + sp.aNeg * sp.bNeg * eSW,
             Spread(sp) + EPS);
  }

  /** A diffusive term p n / (p + n + EPS) times the jump between the
    * reconstructed faces lo and hi. */
  function Diffusive(p: real, n: real, lo: FaceB, hi: FaceB): real
    requires p >= 0.0 && n >= 0.0
  {
    Damped(p, n, (lo.b - HALF * lo.dAcross) - (hi.b + HALF * hi.dAcross))
  }

  /** p n / (p + n + EPS) times a jump. */
  function Damped(p: real, n: real, jump: real): real
    requires p >= 0.0 && n >= 0.0
  {
    p * n / (p + n + EPS) * jump
  }

  /** The edge value written into the cell's E slot, given the speeds, the
    * four faces S, N (a-faces of SW and NW) and W, E (b-faces of SW and SE),
    * and the four corner flows. */
  function EdgeValue(sp: Speeds, s: FaceB, n: FaceB, w: FaceB, e: FaceB,
                     fSW: Flow, fSE: Flow, fNW: Flow, fNE: Flow): real
    requires NonNegative(sp)
  {
    Upwinded(sp, CornerE(n, e, fNE, 1.0, 1.0), CornerE(s, e, fSE, 1.0, -1.0),
             CornerE(n, w, fNW, -1.0, 1.0), CornerE(s, w, fSW, -1.0, -1.0))
    - Diffusive(sp.bPos, sp.bNeg, s, n)
    + Diffusive(sp.aPos, sp.aNeg, w, e)
  }

  /** The first-order variant of the source (FS_1ST_ORDER): first-order
    * corners and diffusive terms on the raw face jumps. */
  function FirstOrderEdgeValue(sp: Speeds, s: FaceB, n: FaceB, w: FaceB, e: FaceB,
                               fSW: Flow, fSE: Flow, fNW: Flow, fNE: Flow): real
    requires NonNegative(sp)
  {
    Upwinded(sp, FirstOrderCornerE(n, e, fNE), FirstOrderCornerE(s, e, fSE),
             FirstOrderCornerE(n, w, fNW), FirstOrderCornerE(s, w, fSW))
    - Damped(sp.bPos, sp.bNeg, s.b - n.b)
    + Damped(sp.aPos, sp.aNeg, w.b - e.b)
  }

  /** With every derivative zero the second-order edge value equals the
    * first-order one. */
  lemma FlatEdgeIsFirstOrder(sp: Speeds, s: FaceB, n: FaceB, w: FaceB, e: FaceB,
                             fSW: Flow, fSE: Flow, fNW: Flow, fNE: Flow)
    requires NonNegative(sp)
    requires FaceFlat(s) && FaceFlat(n) && FaceFlat(w) && FaceFlat(e)
    requires FlowFlat(fSW) && FlowFlat(fSE) && FlowFlat(fNW) && FlowFlat(fNE)
    ensures EdgeValue(sp, s, n, w, e, fSW, fSE, fNW, fNE) == FirstOrderEdgeValue(sp, s, n, w, e, fSW, fSE, fNW, fNE)
  {
    FlatCornerIsFirstOrder(n, e, fNE, 1.0, 1.0);
    FlatCornerIsFirstOrder(s, e, fSE, 1.0, -1.0);
    FlatCornerIsFirstOrder(n, w, fNW, -1.0, 1.0);
    FlatCornerIsFirstOrder(s, w, fSW, -1.0, -1.0);
    assert (s.b - HALF * s.dAcross) - (n.b + HALF * n.dAcross) == s.b - n.b;
    assert (w.b - HALF * w.dAcross) - (e.b + HALF * e.dAcross) == w.b - e.b;
  }

  // ---------------------------------------------------------------------
  // The edge in the grid

  /** The transverse axes of the edge along e. */
  function AxisA(e: Axis): Axis { Next(e) }
  function AxisB(e: Axis): Axis { Next(Next(e)) }

  lemma FrameDistinct(e: Axis)
    ensures AxisA(e) != e && AxisB(e) != e && AxisA(e) != AxisB(e)
  {
  }

  /** A neighbour offset (i, j, k). */
  type Offset = (int, int, int)

  function Comp(o: Offset, ax: Axis): int
  {
    if ax == 0 then o.0 else if ax == 1 then o.1 else o.2
  }

  predicate Small(o: Offset)
  {
    -1 <= o.0 <= 1 && -1 <= o.1 <= 1 && -1 <= o.2 <= 1
  }

  /** o moved by s along ax. */
  function Shift(o: Offset, ax: Axis, s: int): (r: Offset)
    ensures Comp(r, ax) == Comp(o, ax) + s
    ensures forall other: Axis :: other != ax ==> Comp(r, other) == Comp(o, other)
  {
    if ax == 0 then (o.0 + s, o.1, o.2) else if ax == 1 then (o.0, o.1 + s, o.2) else (o.0, o.1, o.2 + s)
  }

  /** Offset of a corner cell: da, db in {-1, 0} steps along a and b
    * (SW = (0, 0), SE = (-1, 0), NW = (0, -1), NE = (-1, -1)). */
  function CornerOffset(e: Axis, da: int, db: int): (o: Offset)
    requires -1 <= da <= 0 && -1 <= db <= 0
    ensures Small(o)
    ensures Comp(o, AxisA(e)) == da && Comp(o, AxisB(e)) == db && Comp(o, e) == 0
  {
    FrameDistinct(e);
    Shift(Shift((0, 0, 0), AxisA(e), da), AxisB(e), db)
  }

  /** Offset of the cell above a corner along the edge, which the fast speed
    * estimate of that corner reads. */
  function AboveOffset(e: Axis, da: int, db: int): (o: Offset)
    requires -1 <= da <= 0 && -1 <= db <= 0
    ensures Small(o)
    ensures Comp(o, AxisA(e)) == da && Comp(o, AxisB(e)) == db && Comp(o, e) == 1
  {
    FrameDistinct(e);
    Shift(CornerOffset(e, da, db), e, 1)
  }

  /** The offset the source reads for the fast speed estimate: for the NE
    * corner of the z edge it reads the cell above NW. */
  function AboveOffsetAsWritten(e: Axis, da: int, db: int): (o: Offset)
    requires -1 <= da <= 0 && -1 <= db <= 0
  {
    if e == 2 && da == -1 && db == -1 then AboveOffset(e, 0, -1) else AboveOffset(e, da, db)
  }

  /** The z edge's NE corner reads the cell at (0,-1,+1), above NW, and not
    * the cell at (-1,-1,+1) above itself. */
  lemma ZNorthEastReadsAboveNorthWest()
    ensures AboveOffsetAsWritten(2, -1, -1) == (0, -1, 1)
    ensures AboveOffset(2, -1, -1) == (-1, -1, 1)
    ensures AboveOffsetAsWritten(2, -1, -1) == AboveOffset(2, 0, -1)
  {
    assert AxisA(2) == 0 && AxisB(2) == 1;
    assert CornerOffset(2, 0, -1) == Shift(Shift((0, 0, 0), 0, 0), 1, -1) == (0, -1, 0);
    assert CornerOffset(2, -1, -1) == Shift(Shift((0, 0, 0), 0, -1), 1, -1) == (-1, -1, 0);
  }

  /** The ID of a corner cell; SW is the cell itself. */
  function CornerID(g: NeighbourQuery, cell: CellID, e: Axis, da: int, db: int): CellID
    requires -1 <= da <= 0 && -1 <= db <= 0
  {
    if da == 0 && db == 0 then cell else NbrAt(g, cell, CornerOffset(e, da, db))
  }

  function AboveID(g: NeighbourQuery, cell: CellID, e: Axis, da: int, db: int): CellID
    requires -1 <= da <= 0 && -1 <= db <= 0
  {
    NbrAt(g, cell, AboveOffset(e, da, db))
  }

  /** Every cell the edge reads is present, and the corners have nonzero
    * density (V is computed as rho V / rho). */
  predicate EdgeReadable(cells: CellMap, g: NeighbourQuery, cell: CellID, e: Axis)
  {
    forall da: int, db: int :: -1 <= da <= 0 && -1 <= db <= 0 ==>
      && CornerID(g, cell, e, da, db) in cells
      && cells[CornerID(g, cell, e, da, db)].cp[RHO] != 0.0
      && AboveID(g, cell, e, da, db) in cells
  }

  /** Per-corner values, in the order SW, SE, NW, NE. */
  datatype Quad<T> = Quad(sw: T, se: T, nw: T, ne: T)

  function Corners(cells: CellMap, g: NeighbourQuery, cell: CellID, e: Axis): (q: Quad<CellData>)
    requires EdgeReadable(cells, g, cell, e)
    ensures q.sw.cp[RHO] != 0.0 && q.se.cp[RHO] != 0.0 && q.nw.cp[RHO] != 0.0 && q.ne.cp[RHO] != 0.0
  {
    Quad(cells[CornerID(g, cell, e, 0, 0)], cells[CornerID(g, cell, e, -1, 0)],
         cells[CornerID(g, cell, e, 0, -1)], cells[CornerID(g, cell, e, -1, -1)])
  }

  function Above(cells: CellMap, g: NeighbourQuery, cell: CellID, e: Axis): Quad<CellData>
    requires EdgeReadable(cells, g, cell, e)
  {
    Quad(cells[AboveID(g, cell, e, 0, 0)], cells[AboveID(g, cell, e, -1, 0)],
         cells[AboveID(g, cell, e, 0, -1)], cells[AboveID(g, cell, e, -1, -1)])
  }

  /** The face B component comp of a cell, with its derivatives across and along. */
  function FaceOf(x: CellData, comp: Axis, across: Axis, along: Axis): FaceB
    requires comp != across && comp != along
  {
    FaceB(x.cp[BSlot(comp)], x.der[DBSlot(comp, across)], x.der[DBSlot(comp, along)])
  }

  /** A corner's flow in the frame of the edge along e. */
  function FlowOf(x: CellData, e: Axis): Flow
    requires x.cp[RHO] != 0.0
  {
    var a, b := AxisA(e), AxisB(e);
    Flow(x.cp[MomentumSlot(a)] / x.cp[RHO], x.cp[MomentumSlot(b)] / x.cp[RHO],
         x.der[DVSlot(a, a)], x.der[DVSlot(a, b)], x.der[DVSlot(a, e)],
         x.der[DVSlot(b, a)], x.der[DVSlot(b, b)], x.der[DVSlot(b, e)])
  }

  /** The fast magnetosonic speed estimate at a corner of the edge along e
    * (calculateFastMSspeedYZ, XZ, XY): given the corner cell, the cell above
    * it along e, the corner's a-face and b-face, and its sides sa and sb.
    * It takes a square root and is a parameter of the model. */
  type FastSpeed = (Axis, CellData, CellData, FaceB, FaceB, real, real) -> real

  /** The faces the edge reads: S and N are the a-faces of SW and NW, W and E
    * the b-faces of SW and SE. */
  function FacesOf(c: Quad<CellData>, e: Axis): Quad<FaceB>
  {
    FrameDistinct(e);
    Quad(FaceOf(c.sw, AxisA(e), AxisB(e), e), FaceOf(c.sw, AxisB(e), AxisA(e), e),
         FaceOf(c.nw, AxisA(e), AxisB(e), e), FaceOf(c.se, AxisB(e), AxisA(e), e))
  }

  /** The speed samples of the four corners. Note the Quad of faces holds
    * S, W, N, E in its sw, se, nw, ne fields. */
  function SamplesOf(c: Quad<CellData>, up: Quad<CellData>, e: Axis, fast: FastSpeed): Quad<Sample>
    requires c.sw.cp[RHO] != 0.0 && c.se.cp[RHO] != 0.0 && c.nw.cp[RHO] != 0.0 && c.ne.cp[RHO] != 0.0
  {
    var f := FacesOf(c, e);
    var s, w, n, ea := f.sw, f.se, f.nw, f.ne;
    var fSW, fSE, fNW, fNE := FlowOf(c.sw, e), FlowOf(c.se, e), FlowOf(c.nw, e), FlowOf(c.ne, e);
    Quad(Sample(fSW.va, fSW.vb, fast(e, c.sw, up.sw, s, w, -1.0, -1.0)),
         Sample(fSE.va, fSE.vb, fast(e, c.se, up.se, s, ea, 1.0, -1.0)),
         Sample(fNW.va, fNW.vb, fast(e, c.nw, up.nw, n, w, -1.0, 1.0)),
         Sample(fNE.va, fNE.vb, fast(e, c.ne, up.ne, n, ea, 1.0, 1.0)))
  }

  /** The edge-averaged E_e of the cell at the SW corner, from its corners,
    * the cells above them and the speeds sp. */
  function EdgeFromCorners(c: Quad<CellData>, e: Axis, sp: Speeds): real
    requires c.sw.cp[RHO] != 0.0 && c.se.cp[RHO] != 0.0 && c.nw.cp[RHO] != 0.0 && c.ne.cp[RHO] != 0.0
    requires NonNegative(sp)
  {
    var f := FacesOf(c, e);
    EdgeValue(sp, f.sw, f.nw, f.se, f.ne, FlowOf(c.sw, e), FlowOf(c.se, e), FlowOf(c.nw, e), FlowOf(c.ne, e))
  }

  /** The value calculateEdgeElectricFieldX/Y/Z writes into E_e of cell. */
  function EdgeEAt(cells: CellMap, g: NeighbourQuery, cell: CellID, e: Axis, fast: FastSpeed): real
    requires EdgeReadable(cells, g, cell, e)
  {
    var c := Corners(cells, g, cell, e);
    var q := SamplesOf(c, Above(cells, g, cell, e), e, fast);
    EdgeFromCorners(c, e, Envelope(q.sw, q.se, q.nw, q.ne))
  }
}
