# Vlasiator's constrained-transport field solver and its ParGrid drivers

This project is a Dafny model of the core of an early version of Vlasiator, a hybrid-Vlasov plasma simulation code. Most of the model covers its magnetic field solver. The solver implements the upwind constrained-transport scheme of Londrillo and Del Zanna (J. Comp. Phys. 195, 2004) on the ParGrid mesh. Each spatial cell stores:

- face-centred magnetic field components BX, BY, BZ;
- edge-centred electric field components EX, EY, EZ;
- the derivatives of B, V and rho;
- face-averaged and volume-averaged copies of E and B.

The model covers:

- **Neighbour topology** (`Topology.dfy`, modules `Bits` and `NeighbourTopology`):
  - the 3x3x3 neighbour numbering `calcNbrNumber` and the 5x5x5 type-ID numbering `calcNbrTypeID`;
  - the 27-bit existence mask that `calculateBoundaryFlags` builds per cell;
  - the nine capability masks `CALCULATE_D*`, `CALCULATE_E*` and `PROPAGATE_B*`, and the `(flags & M) == M` gate that chooses between the interior formula and the boundary substitute.
- **Transfer stencils** (`Stencils.dfy`): the receive and send neighbour lists of the three MPI stencils, and the stencil rebuild in `propagateFields`.
- **Cell layout** (`CellState.dfy`): the cell parameter and derivative slots, the zero-filled stand-in for a missing cell, and the spatial grid of one process.
- **Edge electric field** (`EdgeField.dfy`): one generic corner formula for the twelve corner estimates of `calculateEdgeElectricFieldX/Y/Z`, the characteristic speeds, and the upwinded weighting.
- **Propagation of B** (`Propagation.dfy`): the gated face update of `propagateMagneticField`, Faraday's law, and the constrained-transport identity on a uniform lattice.
- **Reconstruction** (`Reconstruction.dfy`): `reconstructionCoefficients`, the face-averaged and volume-averaged E and B helpers, and the per-cell bodies of `calculateFaceAveragedFields` and `calculateVolumeAveragedFields`.
- **Solver passes** (`FieldSolver.dfy`): every driver loop as a left fold over the local cells, where each step reads the cells as the earlier steps left them. Lemmas show that, for a list of distinct cells, the in-place propagate, face and volume loops equal a simultaneous update. The edge loop does too, for any list, when the fast-speed estimate reads no E.
- **Driver** (`Driver.dfy`, class `FieldSolverDriver.Solver`): the solver's globals and its imperative entry points `initializeFieldPropagator` and `propagateFields`, with the loops they run.
- **User-set system boundary** (`SetByUser.dfy`, class `SetByUser.Condition`): face-name parsing, cell assignment, the first-face precedence rule, template copying, input loading with dummy rows, the ascending-time check, and time interpolation with clamping.
- **Vlasov mover scheduling** (`VlasovMover.dfy`): acceleration subcycles and their lengths, the running maximum, order-preserving cell filters and pruning, the moment-skip rule, moment averaging, and the MAXRDT minimum.
- **ParGrid main driver** (`ParGridMain.dfy`, class `ParGridMain.MoverState`): `findNeighbours`, its unsigned-char `calcNbrTypeID`, and the kernel loops that skip NULL cells.

Real arithmetic stands for the source's `Real`. Function-valued parameters stand for the collaborators whose code lies outside this core:

- the fast magnetosonic speed;
- the derivative kernel with its limiter;
- the boundary substitutes;
- `determineFace`;
- template generation;
- the Vlasov kernels.

## Model

| member | source | states |
|---|---|---|
| Bits.BitIsAndShl | fieldsolver/londrillo_delzanna.cpp:139-145 | bit n of a word is set iff `w & (1 << n)` is nonzero |
| Bits.HasIsAndEq | fieldsolver/londrillo_delzanna.cpp:747 | a word contains mask m iff `(w & m) == m`, the gate the solver tests |
| NeighbourTopology.NbrNumberBijective | fieldsolver/londrillo_delzanna.cpp:116 | calcNbrNumber is a bijection between {0,1,2}^3 and 0..26, with the inverse in both directions; the cell itself (1,1,1) is 13 |
| NeighbourTopology.NbrTypeIDBijective | fieldsolver/londrillo_delzanna.cpp:118 | calcNbrTypeID is a bijection between {0..4}^3 and 0..124, with the inverse in both directions; the centre (2,2,2) is 62 |
| NeighbourTopology.NegationReflectsNumbers | fieldsolver/londrillo_delzanna.cpp:116-118 | negating an offset maps neighbour number n to 26 - n and type ID t to 124 - t |
| NeighbourTopology.ExistenceMaskBits | fieldsolver/londrillo_delzanna.cpp:133-149 | the existence mask has bit 13 set; bit b < 27 is set iff the neighbour b exists; no bit above 26 is set |
| NeighbourTopology.CalculateBoundaryFlag | fieldsolver/londrillo_delzanna.cpp:139-146 | the triple loop that raises bits returns the existence mask, with bit b set iff b == 13 or neighbour b exists |
| NeighbourTopology.HasMaskOfExisting | fieldsolver/londrillo_delzanna.cpp:906-964 | a mask built by OR-ing neighbour bits is contained in the existence mask iff all those neighbours exist |
| NeighbourTopology.CapabilityGate | fieldsolver/londrillo_delzanna.cpp:906-964 | for each of the nine capability masks, `(flags & M) == M` on the existence mask iff every neighbour the capability lists exists |
| NeighbourTopology.PropagateBXGate | fieldsolver/londrillo_delzanna.cpp:942-948 | PROPAGATE_BX holds iff the -x, -y, +y, -z and +z neighbours exist |
| TransferStencils.CalculateTransferStencil1Lists | fieldsolver/londrillo_delzanna.cpp:819-850 | the two loops of calculateTransferStencil1 build the receive and send walks of the 3x3x3 block, with its skip rules |
| TransferStencils.CalculateTransferStencil3Lists | fieldsolver/londrillo_delzanna.cpp:877-886 | calculateTransferStencil3 uses one walk over all 26 neighbours for both directions |
| TransferStencils.WalkIncreasing | fieldsolver/londrillo_delzanna.cpp:820-831 | every walk lists strictly increasing type IDs, so no type ID repeats |
| TransferStencils.CellItselfNotListed | fieldsolver/londrillo_delzanna.cpp:821 | a walk that skips the centre never lists type ID 62 |
| TransferStencils.Stencil1ReceiveLength | fieldsolver/londrillo_delzanna.cpp:816-832 | stencil 1 receives from 18 of the 26 neighbours |
| TransferStencils.Stencil1SendLength | fieldsolver/londrillo_delzanna.cpp:834-850 | stencil 1 sends to 18 of the 26 neighbours |
| TransferStencils.Stencil1SendMembers | fieldsolver/londrillo_delzanna.cpp:820-849 | a type ID is sent iff its mirror 124 - t is received |
| TransferStencils.Stencil1SendsMirrorReceives | fieldsolver/londrillo_delzanna.cpp:820-849 | the send list is exactly the receive list mirrored pointwise, in reverse order |
| TransferStencils.Stencil2SendsMirrorReceives | fieldsolver/londrillo_delzanna.cpp:853-874 | stencil 2 receives 6 type IDs above the centre and sends their mirrors in the same order |
| TransferStencils.AllNeighboursLength | fieldsolver/londrillo_delzanna.cpp:877-886 | stencil 3 lists 26 type IDs |
| TransferStencils.AllNeighboursMembers | fieldsolver/londrillo_delzanna.cpp:877-886 | stencil 3 lists exactly the 26 non-centre type IDs of the cube |
| TransferStencils.RebuiltStencil3Complete | fieldsolver/londrillo_delzanna.cpp:1473-1478 | the corrected rebuild keeps all 26 neighbours in stencil 3 |
| TransferStencils.RebuildAsWrittenDropsNeighbours | fieldsolver/londrillo_delzanna.cpp:1476 | the rebuild as written leaves stencil 3 with 6 neighbours and drops offset (0,-1,-1); the corrected rebuild keeps 26 |
| CellState.ZeroCell | fieldsolver/londrillo_delzanna.cpp:1505-1507 | the dummy cell holds zero in every parameter and derivative slot |
| CellState.ReadOrZero | fieldsolver/londrillo_delzanna.cpp:1509-1517 | reading INVALID_CELLID yields the all-zero dummy cell |
| CellState.SpatialGrid.constructor | vlasovsolver/vlasovmover.cpp:553-554 | the grid holds the given cells and its list of distinct local cells |
| EdgeElectricField.RunningPeak | fieldsolver/londrillo_delzanna.cpp:351-420 | a running max started at ZERO over the four corners is their peak: at least ZERO and every value, and equal to one of them unless it is ZERO |
| EdgeElectricField.PeakUnique | fieldsolver/londrillo_delzanna.cpp:351-420 | two peaks of the same values are equal |
| EdgeElectricField.EnvelopeUnique | fieldsolver/londrillo_delzanna.cpp:351-420 | the speed envelope of four corners is unique |
| EdgeElectricField.Envelope | fieldsolver/londrillo_delzanna.cpp:351-420 | the four characteristic speeds are each corner's peak of -v + c or v + c, and all are non-negative |
| EdgeElectricField.UpwindSpeeds | fieldsolver/londrillo_delzanna.cpp:351-420 | the corner-by-corner max updates compute exactly the envelope |
| EdgeElectricField.EnvelopeAsWrittenY | fieldsolver/londrillo_delzanna.cpp:520-522 | the y-edge speeds as written, with -v - c at the SE corner |
| EdgeElectricField.SlippedSpeedMissesCorner | fieldsolver/londrillo_delzanna.cpp:520-522 | with a resting SE corner of wave speed 1, the as-written backward speed is 0 while the envelope gives 1 |
| EdgeElectricField.CornerAntisymmetric | fieldsolver/londrillo_delzanna.cpp:339-410 | exchanging the two transverse axes negates the corner estimate, as for the component of -V x B |
| EdgeElectricField.FlatCornerIsFirstOrder | fieldsolver/londrillo_delzanna.cpp:340-344 | with all derivatives zero the second-order corner terms vanish |
| EdgeElectricField.WeightsSum | fieldsolver/londrillo_delzanna.cpp:423-424 | the four corner weights sum to (aPos+aNeg)(bPos+bNeg), the denominator minus EPS |
| EdgeElectricField.CornerE | fieldsolver/londrillo_delzanna.cpp:339-409 | one generic second-order corner estimate for the twelve corner formulas (stated by CornerAntisymmetric, FlatCornerIsFirstOrder) |
| EdgeElectricField.Upwinded | fieldsolver/londrillo_delzanna.cpp:423-424 | the speed-weighted blend of the four corner estimates (stated by WeightsSum, UpwindedBetween) |
| EdgeElectricField.Diffusive | fieldsolver/londrillo_delzanna.cpp:430-432 | the second-order diffusive term p n / (p + n + EPS) times the jump between the reconstructed faces |
| EdgeElectricField.EdgeValue | fieldsolver/londrillo_delzanna.cpp:422-433 | the edge E written into the cell: the blend minus and plus the two diffusive terms (stated by FlatEdgeIsFirstOrder) |
| EdgeElectricField.EdgeEAt | fieldsolver/londrillo_delzanna.cpp:290-727 | the value calculateEdgeElectricFieldX/Y/Z writes, from the cell's corners, the cells above them and the corrected speed envelope (the model runs the corrected members of "## Findings") |
| EdgeElectricField.UpwindedBetween | fieldsolver/londrillo_delzanna.cpp:423-424 | when every corner estimate lies in [lo, hi], the blend times its denominator lies between Spread*lo and Spread*hi |
| EdgeElectricField.FlatEdgeIsFirstOrder | fieldsolver/londrillo_delzanna.cpp:423-433 | with every derivative zero, the second-order edge value equals the first-order one |
| EdgeElectricField.CornerOffset | fieldsolver/londrillo_delzanna.cpp:346-412 | a corner cell lies da, db steps back along the transverse axes and level with the edge |
| EdgeElectricField.AboveOffset | fieldsolver/londrillo_delzanna.cpp:346-412 | the cell the fast speed reads sits one step above its corner along the edge |
| EdgeElectricField.ZNorthEastReadsAboveNorthWest | fieldsolver/londrillo_delzanna.cpp:707-709 | the z-edge NE corner as written reads the cell at (0,-1,1), above NW, and not the cell at (-1,-1,1) above itself |
| FieldPropagation.FaceUpdateIsFaraday | fieldsolver/londrillo_delzanna.cpp:760 | the change of flux through a face equals -dt times the circulation of E around it |
| FieldPropagation.FaceUpdate | fieldsolver/londrillo_delzanna.cpp:760 | one face's update B_c + dt/d_b (E_a above - E_a) + dt/d_a (E_b - E_b above) (stated by FaceUpdateIsFaraday, UniformEKeepsFace) |
| FieldPropagation.NewB | fieldsolver/londrillo_delzanna.cpp:760-794 | the update of B_c from the cell's own sizes and the E of its +a and +b neighbours (stated by PropagatedComponent) |
| FieldPropagation.UniformEKeepsFace | fieldsolver/londrillo_delzanna.cpp:760 | equal E on opposite edges leaves the face B unchanged |
| FieldPropagation.PropagatedCell | fieldsolver/londrillo_delzanna.cpp:729-796 | propagateMagneticField writes only BX, BY and BZ; each is the gated Faraday update |
| FieldPropagation.PropagatedComponent | fieldsolver/londrillo_delzanna.cpp:747-794 | if the PROPAGATE_B gate fails the component is kept; otherwise its flux changes by -dt times the circulation |
| FieldPropagation.UniformEKeepsCell | fieldsolver/londrillo_delzanna.cpp:729-796 | E that is the same in the cell and its upper neighbours leaves the cell unchanged |
| FieldPropagation.NetFluxDifference | fieldsolver/londrillo_delzanna.cpp:760-794 | the change in net flux is linear in the six face changes |
| FieldPropagation.FluxPreserved | fieldsolver/londrillo_delzanna.cpp:760-794 | on a uniform lattice one update of every face leaves the net flux of every cell, and so its discrete divergence, unchanged |
| Reconstruction.ReconstructionCoefficients | fieldsolver/londrillo_delzanna.cpp:1492-1568 | an INVALID_CELLID cell gets all-zero coefficients; a missing +x, +y or +z neighbour reads as zeros, so for example a_x = -Bx, a_xy = -dBx/dy, a_y = dBx/dy / 2 and a_0 = Bx/2 - a_xx/6 when +x is missing |
| Reconstruction.CoefficientsSolenoidal | fieldsolver/londrillo_delzanna.cpp:1557-1559 | 2 a_xx + b_yx + c_zx = 0, and likewise for b_yy and c_zz |
| Reconstruction.DivergenceConstant | fieldsolver/londrillo_delzanna.cpp:1557-1559 | the reconstructed field has the same divergence everywhere in the cell |
| Reconstruction.DivergenceIsNetFlux | fieldsolver/londrillo_delzanna.cpp:1539-1567 | that divergence is the net face flux of the cell |
| Reconstruction.FaceQuadratureX | fieldsolver/londrillo_delzanna.cpp:1687-1702 | the closed-form face mean on an x face agrees with Simpson quadrature of the reconstruction |
| Reconstruction.FaceQuadratureY | fieldsolver/londrillo_delzanna.cpp:1704-1719 | the same on a y face |
| Reconstruction.FaceQuadratureZ | fieldsolver/londrillo_delzanna.cpp:1721-1736 | the same on a z face |
| Reconstruction.VolumeMeanIsConst | fieldsolver/londrillo_delzanna.cpp:1849-1851 | the cell mean of each reconstructed component is its constant term, which is stored as BXVOL, BYVOL, BZVOL |
| Reconstruction.FacesReproduced | fieldsolver/londrillo_delzanna.cpp:1539-1567 | the reconstruction's mean over the lower c-face is the cell's B_c, and over the upper c-face the neighbour's B_c |
| Reconstruction.MagnFieldAsWritten | fieldsolver/londrillo_delzanna.cpp:1687-1736 | averageFace{X,Y,Z}MagnField as written: zero for INVALID_CELLID |
| Reconstruction.MagnField | fieldsolver/londrillo_delzanna.cpp:1687-1736 | the corrected face B: zero for INVALID_CELLID |
| Reconstruction.MagnFieldIsFaceMean | fieldsolver/londrillo_delzanna.cpp:1687-1736 | each component of MagnField on either face is the reconstruction's mean over that face |
| Reconstruction.UpperNormalIsWrongFace | fieldsolver/londrillo_delzanna.cpp:1699 | as written, the normal B seen from the -x neighbour is its own lower-face B (0), not the shared face's (1) |
| Reconstruction.FaceECells | fieldsolver/londrillo_delzanna.cpp:1570-1685 | the eight cells of each face E average |
| Reconstruction.FaceECellsAsWritten | fieldsolver/londrillo_delzanna.cpp:1667-1674 | the cells as read, with the z face reading (0,0,-1) in place of (0,1,-1) |
| Reconstruction.ZFaceReadsOneCellTwice | fieldsolver/londrillo_delzanna.cpp:1673 | as written, the z face reads (0,0,-1) twice and never reads (0,1,-1); the corrected lists hold eight distinct cells |
| Reconstruction.PairIsAlongThird | fieldsolver/londrillo_delzanna.cpp:1600-1601 | the tangential E_t on the n face pairs the cell with its neighbour along the remaining axis |
| Reconstruction.FaceEMaskBuilt | fieldsolver/londrillo_delzanna.cpp:1583-1584 | each face mask is the OR of the bits of its eight cells |
| Reconstruction.VolumeEMaskBuilt | fieldsolver/londrillo_delzanna.cpp:1828-1830 | each volume mask is the OR of the bits of its four cells |
| Reconstruction.OffsetGate | fieldsolver/londrillo_delzanna.cpp:1588 | the gate on a mask built from offsets holds iff every listed neighbour exists |
| Reconstruction.FaceEOver | fieldsolver/londrillo_delzanna.cpp:1570-1607 | face E is zero for an INVALID_CELLID cell or when the required-cells gate fails |
| Reconstruction.FaceEUniform | fieldsolver/londrillo_delzanna.cpp:1598-1601 | when the eight cells share one E, the face E is that E (the 1/8 and 1/2 means) |
| Reconstruction.ZFaceAsWrittenError | fieldsolver/londrillo_delzanna.cpp:1673-1679 | the as-written z-face Ez differs from the corrected one by 1/8 of E(0,0,-1) - E(0,1,-1); the other components agree |
| Reconstruction.VolumeE | fieldsolver/londrillo_delzanna.cpp:1859-1884 | EXVOL, EYVOL and EZVOL are 0 when their four-cell gate fails |
| Reconstruction.VolumeEUniform | fieldsolver/londrillo_delzanna.cpp:1859-1884 | when the four cells share one E_t, the volume average is E_t |
| Reconstruction.FlagOf | fieldsolver/londrillo_delzanna.cpp:1753-1755 | a cell without a flag entry gets existingCells 0 |
| Reconstruction.FaceBIsMeanOfSides | fieldsolver/londrillo_delzanna.cpp:1775-1815 | each face B component is the mean of the two reconstructions over the shared face; the normal component is the cell's B_n |
| Reconstruction.GatesStored | fieldsolver/londrillo_delzanna.cpp:1588-1596 | with sound flags, every gate that passes names only stored cells |
| Reconstruction.FaceAveragedB | fieldsolver/londrillo_delzanna.cpp:1774-1815 | the face-B slots hold the two-sided mean of each lower face |
| Reconstruction.FaceAveragedNormalB | fieldsolver/londrillo_delzanna.cpp:1774-1815 | the normal face-B component is the cell's own B_n |
| Reconstruction.FaceAveragedE | fieldsolver/londrillo_delzanna.cpp:1778-1810 | the corrected face-E slots hold each face's own E |
| Reconstruction.FaceAveragedKeeps | fieldsolver/londrillo_delzanna.cpp:1738-1817 | no slot outside the face-B and face-E slots changes |
| Reconstruction.FaceEOverwritten | fieldsolver/londrillo_delzanna.cpp:1795 | with E = (1,1,1) around the cell, EXFACEY as written stays 0; corrected it is 1 |
| Reconstruction.FaceAveragedAsWrittenOldE | fieldsolver/londrillo_delzanna.cpp:1795-1810 | as written, the y- and z-face E slots keep their old values |
| Reconstruction.FaceAveragedAsWrittenXSlots | fieldsolver/londrillo_delzanna.cpp:1809-1810 | as written, the x-face E slots end up holding the z-face E |
| Reconstruction.VolumeAveragedSlots | fieldsolver/londrillo_delzanna.cpp:1845-1884 | the volume B is the cell mean of the reconstruction; the volume E is the gated four-cell mean |
| Reconstruction.VolumeAveragedKeeps | fieldsolver/londrillo_delzanna.cpp:1819-1886 | no slot outside BXVOL..EZVOL changes |
| Reconstruction.FaceAveraged | fieldsolver/londrillo_delzanna.cpp:1749-1816 | the corrected per-cell body of calculateFaceAveragedFields (stated by FaceAveragedB, FaceAveragedNormalB, FaceAveragedE, FaceAveragedKeeps) |
| Reconstruction.FaceAveragedAsWritten | fieldsolver/londrillo_delzanna.cpp:1749-1816 | that body as written (stated by FaceAveragedAsWrittenOldE, FaceAveragedAsWrittenXSlots, FaceEOverwritten) |
| Reconstruction.VolumeAveraged | fieldsolver/londrillo_delzanna.cpp:1833-1885 | the per-cell body of calculateVolumeAveragedFields (stated by VolumeAveragedSlots, VolumeAveragedKeeps) |
| FieldSolver.PropagatedFirst | fieldsolver/londrillo_delzanna.cpp:1414-1417 | the in-place loop keeps the keys of the cell map and changes only BX..BZ |
| FieldSolver.PropagatedSimultaneous | fieldsolver/londrillo_delzanna.cpp:1414-1417 | for distinct cells, the in-place loop equals updating every listed cell from the pre-loop cells |
| FieldSolver.PropagatedSettled | fieldsolver/londrillo_delzanna.cpp:1414-1417 | s[k] keeps after the loop what step k gave it |
| FieldSolver.PropagatedLast | fieldsolver/londrillo_delzanna.cpp:1414-1417 | step k gives s[k] the update computed from the pre-loop cells |
| FieldSolver.BoundaryFirst | fieldsolver/londrillo_delzanna.cpp:1422-1438 | the boundary loop keeps the keys and changes only BX..BZ |
| FieldSolver.BoundaryKeepsGated | fieldsolver/londrillo_delzanna.cpp:1432-1437 | the boundary loop keeps every B component whose gate holds |
| FieldSolver.MagneticFieldPropagated | fieldsolver/londrillo_delzanna.cpp:1412-1439 | propagateMagneticFieldSimple changes only BX..BZ |
| FieldSolver.InteriorCellAdvanced | fieldsolver/londrillo_delzanna.cpp:1412-1439 | a listed cell whose three gates hold ends with the update computed from the pre-call cells |
| FieldSolver.BoundaryKeepsInterior | fieldsolver/londrillo_delzanna.cpp:1422-1438 | the boundary loop leaves a cell whose three gates hold as it was |
| FieldSolver.DerivativesFirst | fieldsolver/londrillo_delzanna.cpp:1313-1326 | the derivative loop keeps the keys and changes only derivatives |
| FieldSolver.EdgeFirst | fieldsolver/londrillo_delzanna.cpp:1362-1382 | the edge loop keeps the keys and changes only EX..EZ (the model runs the corrected members of "## Findings") |
| FieldSolver.EdgeKeepsUngated | fieldsolver/londrillo_delzanna.cpp:1366-1368 | an E component whose CALCULATE_E gate fails keeps its value |
| FieldSolver.EdgeEAtKept | fieldsolver/londrillo_delzanna.cpp:220-290 | when the fast-speed estimate reads no E (calculateFastMSspeed* read only B, RHO and derivatives), a pass that writes only EX..EZ leaves every edge value unchanged |
| FieldSolver.EdgeCellEntry | fieldsolver/londrillo_delzanna.cpp:1365-1367 | the three gated edge functions of one cell give its gated E_e the edge value of the cells before the pass, and leave E_e of every other cell alone |
| FieldSolver.EdgeLast | fieldsolver/londrillo_delzanna.cpp:1362-1368 | step k gives a gated E_e of s[k] the edge value computed from the pre-loop cells |
| FieldSolver.EdgeSimultaneous | fieldsolver/londrillo_delzanna.cpp:1362-1382 | after the edge loop, every gated E_e of a visited cell holds the edge value computed from the pre-loop cells, so the in-place loop equals a simultaneous update, even when a cell is listed twice (the model runs the corrected members of "## Findings") |
| FieldSolver.EdgeUnvisited | fieldsolver/londrillo_delzanna.cpp:1362-1382 | a cell the edge loop does not visit keeps all its data |
| FieldSolver.FaceAveragedFirst | fieldsolver/londrillo_delzanna.cpp:1749-1816 | the face loop keeps the keys of the cell map (the model runs the corrected members of "## Findings") |
| FieldSolver.FaceAveragedWithin | fieldsolver/londrillo_delzanna.cpp:1749-1816 | the face loop changes only face slots (the model runs the corrected members of "## Findings") |
| FieldSolver.FaceAveragedSimultaneous | fieldsolver/londrillo_delzanna.cpp:1749-1816 | for distinct cells, the loop gives each cell the face averages of the pre-loop cells (the model runs the corrected members of "## Findings") |
| FieldSolver.FaceAveragedLast | fieldsolver/londrillo_delzanna.cpp:1749-1816 | step k gives s[k] the averages computed from the pre-loop cells (the model runs the corrected members of "## Findings") |
| FieldSolver.VolumeAveragedFirst | fieldsolver/londrillo_delzanna.cpp:1833-1885 | the volume loop keeps the keys of the cell map |
| FieldSolver.VolumeAveragedWithin | fieldsolver/londrillo_delzanna.cpp:1833-1885 | the volume loop changes only volume slots |
| FieldSolver.VolumeAveragedSimultaneous | fieldsolver/londrillo_delzanna.cpp:1833-1885 | for distinct cells, the loop gives each cell the volume averages of the pre-loop cells |
| FieldSolver.FlagsFor | fieldsolver/londrillo_delzanna.cpp:133-149 | each listed cell gets its existence mask, other entries are kept, and soundness is preserved |
| FieldSolver.FlagsForIdempotent | fieldsolver/londrillo_delzanna.cpp:805-814 | the flag loop repeated inside calculateTransferStencil1 changes nothing |
| FieldSolver.FlagsForFixed | fieldsolver/londrillo_delzanna.cpp:805-814 | a map that already holds the listed cells' masks is left unchanged |
| FieldSolver.FieldsInitialised | fieldsolver/londrillo_delzanna.cpp:972-974 | derivatives, edge E and face averages change only field slots and keep the keys (the model runs the corrected members of "## Findings") |
| FieldSolver.FieldsAdvanced | fieldsolver/londrillo_delzanna.cpp:1480-1483 | the B update followed by the same passes changes only field slots (the model runs the corrected members of "## Findings") |
| FieldSolverDriver.Solver.constructor | fieldsolver/londrillo_delzanna.cpp:73-75 | the solver starts with no flags and empty stencils |
| FieldSolverDriver.Solver.CalculateBoundaryFlags | fieldsolver/londrillo_delzanna.cpp:133-149 | the flag map becomes FlagsFor of the old map |
| FieldSolverDriver.Solver.CalculateTransferStencil1 | fieldsolver/londrillo_delzanna.cpp:798-851 | flags are recomputed (the same map) and stencil 1 gets its two lists |
| FieldSolverDriver.Solver.InitializeFieldPropagator | fieldsolver/londrillo_delzanna.cpp:888-976 | sets the flags and the three stencils, then the cells become FieldsInitialised of the old cells (the model runs the corrected members of "## Findings") |
| FieldSolverDriver.Solver.PropagateFields | fieldsolver/londrillo_delzanna.cpp:1465-1485 | rebuilds the stencils iff requested and clears the request; the cells become FieldsAdvanced of the old cells (the model runs the corrected members of "## Findings", and its rebuild gives stencil 3 all 26 neighbours where line 1476 calls calculateTransferStencil2) |
| FieldSolverDriver.Solver.BuildStencils | fieldsolver/londrillo_delzanna.cpp:893-895 | stencils 1, 2 and 3 in turn; the flags become FlagsFor of the old map |
| FieldSolverDriver.Solver.ComputeFields | fieldsolver/londrillo_delzanna.cpp:972-974 | derivatives, edge E and face averages in turn (the model runs the corrected members of "## Findings") |
| FieldSolverDriver.Solver.PropagateMagneticFieldSimple | fieldsolver/londrillo_delzanna.cpp:1412-1439 | the cells become MagneticFieldPropagated of the old cells |
| FieldSolverDriver.Solver.PropagateCells | fieldsolver/londrillo_delzanna.cpp:1414-1417 | the first loop computes the PropagatedFirst fold |
| FieldSolverDriver.Solver.PropagateStep | fieldsolver/londrillo_delzanna.cpp:1416 | one step of that fold |
| FieldSolverDriver.Solver.SetBoundaryValues | fieldsolver/londrillo_delzanna.cpp:1422-1438 | the second loop computes the BoundaryFirst fold |
| FieldSolverDriver.Solver.BoundaryStep | fieldsolver/londrillo_delzanna.cpp:1432-1437 | one cell's B_x, B_y and B_z boundary replacements |
| FieldSolverDriver.Solver.BoundaryAxisStep | fieldsolver/londrillo_delzanna.cpp:1432-1437 | B_a takes the boundary value iff its PROPAGATE_B gate fails |
| FieldSolverDriver.Solver.CalculateDerivativesSimple | fieldsolver/londrillo_delzanna.cpp:1284-1329 | the cells become DerivativesFirst of the old cells |
| FieldSolverDriver.Solver.CalculateUpwindedElectricFieldSimple | fieldsolver/londrillo_delzanna.cpp:1331-1410 | the cells become EdgeFirst of the old cells (the model runs the corrected members of "## Findings") |
| FieldSolverDriver.Solver.EdgeStep | fieldsolver/londrillo_delzanna.cpp:1366-1368 | the x, y, z edge functions of one cell, each only when its gate holds (the model runs the corrected members of "## Findings") |
| FieldSolverDriver.Solver.EdgeAxisStep | fieldsolver/londrillo_delzanna.cpp:1366 | one gated edge function (the model runs the corrected members of "## Findings") |
| FieldSolverDriver.Solver.CalculateFaceAveragedFields | fieldsolver/londrillo_delzanna.cpp:1738-1817 | the cells become FaceAveragedFirst of the old cells (the model runs the corrected members of "## Findings") |
| FieldSolverDriver.Solver.CalculateVolumeAveragedFields | fieldsolver/londrillo_delzanna.cpp:1819-1886 | the cells become VolumeAveragedFirst of the old cells |
| SetByUser.FacesNamedIff | sysboundary/setbyuser.cpp:53-67 | face i is processed iff the i-th name (x+, x-, y+, y-, z+, z-) occurs in faceList |
| SetByUser.UnrecognisedIgnored | sysboundary/setbyuser.cpp:58-67 | a string that names no face changes nothing, wherever it stands |
| SetByUser.FirstSetUnique | sysboundary/setbyuser.cpp:142-150 | the first face in index order is fixed by its defining property |
| SetByUser.AssignedIdempotent | sysboundary/setbyuser.cpp:77-95 | assigning a cell twice is assigning it once |
| SetByUser.FromTemplateFrame | sysboundary/setbyuser.cpp:235-241 | the template writes change only the five template slots of the condition's own cells; flag, layer and blocks are kept |
| SetByUser.FromTemplateFace | sysboundary/setbyuser.cpp:235-245 | PERB comes from the first face that is both processed and touched, and both loss counters, RHOLOSSADJUST and RHOLOSSVELBOUNDARY, become 0 |
| SetByUser.FromTemplateIdempotent | sysboundary/setbyuser.cpp:235-241 | the template writes, done twice, are done once |
| SetByUser.FromTemplate | sysboundary/setbyuser.cpp:223-241 | the template writes on one cell: PERB from the first processed and touched face's template, loss counters 0 (stated by FromTemplateFrame, FromTemplateFace) |
| SetByUser.Filled | sysboundary/setbyuser.cpp:223-247 | the whole per-cell step: the template writes, then copyCellData from the same template (stated by FilledFromFirstFace, FilledElsewhere) |
| SetByUser.FilledFromFirstFace | sysboundary/setbyuser.cpp:235-245 | a cell of the condition on a processed face is copyCellData from the first such face's template applied to the cell with that PERB and cleared loss counters |
| SetByUser.FilledElsewhere | sysboundary/setbyuser.cpp:223-247 | a cell of another condition, or touching no processed face, is left alone |
| SetByUser.FilledWithoutCopy | sysboundary/setbyuser.cpp:236-244 | with a copy that changes nothing, the step is exactly the five parameter writes |
| SetByUser.BoundaryB | sysboundary/setbyuser.cpp:138-152 | the B component of the first touched face's template, PERBX + c at dt = 0 and PERBX_DT2 + c otherwise, or 0 (stated by BoundaryBMatchesTemplate, BoundaryBOffFaces) |
| SetByUser.Bracketing | sysboundary/setbyuser.cpp:373-398 | the rows and weight interpolate uses; i1 <= i2 < the row count (with BracketClamped, BracketNormal) |
| SetByUser.BoundaryBMatchesTemplate | sysboundary/setbyuser.cpp:130-152 | when the first touched face is processed, the field-solver B at dt = 0 equals the template copy |
| SetByUser.BoundaryBOffFaces | sysboundary/setbyuser.cpp:138-152 | a cell that touches no face gets 0 |
| SetByUser.AscendingSorted | sysboundary/setbyuser.cpp:331-336 | the adjacent-row check holds iff every pair of rows is in time order |
| SetByUser.FirstAtOrAfterUnique | sysboundary/setbyuser.cpp:377-383 | the search finds the first row whose time is at least t |
| SetByUser.BracketClamped | sysboundary/setbyuser.cpp:373-391 | before the first time, row 0 is used with s = 0; past the last, the last row with s = 0 |
| SetByUser.BracketNormal | sysboundary/setbyuser.cpp:384-398 | otherwise i2 is the first row with time >= t, i1 = i2 - 1, and s lies in (0, 1] |
| SetByUser.InterpolateAtSample | sysboundary/setbyuser.cpp:392-405 | with strictly ascending times, interpolating at a sample time returns that row's values |
| SetByUser.Condition.constructor | sysboundary/setbyuser.cpp:33 | a condition with its index, nParams and faceList, and six fresh slots of each per-face state |
| SetByUser.Condition.MarkFace | sysboundary/setbyuser.cpp:61-66 | one face name sets at most its own flag |
| SetByUser.Condition.InitSysBoundary | sysboundary/setbyuser.cpp:44-73 | facesToProcess becomes FacesNamed(faceList); success iff every processed face's file is accepted; on success processed faces hold their file's rows, every other face one row of nParams values -1.0, and the processed faces' templates are regenerated |
| SetByUser.Condition.DummyRow | sysboundary/setbyuser.cpp:262-266 | a row of nParams values, all -1.0 |
| SetByUser.Condition.LoadFile | sysboundary/setbyuser.cpp:309-340 | the rows are accepted iff there is at least one and the times do not decrease |
| SetByUser.Condition.LoadInputData | sysboundary/setbyuser.cpp:256-270 | processed faces get their file's rows; every other face gets exactly one dummy row |
| SetByUser.Condition.GenerateTemplateCells | sysboundary/setbyuser.cpp:349-358 | each processed face's template is regenerated; the others are kept |
| SetByUser.Condition.AnyProcessedFace | sysboundary/setbyuser.cpp:91 | true iff some face is both processed and touched |
| SetByUser.Condition.FirstFace | sysboundary/setbyuser.cpp:142-150 | returns the first set flag in index order |
| SetByUser.Condition.AssignSysBoundary | sysboundary/setbyuser.cpp:75-97 | every local cell becomes Assigned; other cells are kept |
| SetByUser.Condition.SetCellsFromTemplate | sysboundary/setbyuser.cpp:218-250 | every local cell becomes Filled: the template writes, then copyCellData from the same face's template; other cells are kept |
| SetByUser.Condition.FieldSolverBoundaryCondMagneticField | sysboundary/setbyuser.cpp:124-153 | the result is BoundaryB of the cell's touched faces |
| SetByUser.Condition.FindBracket | sysboundary/setbyuser.cpp:366-399 | returns the Bracketing of the face's data at t |
| SetByUser.Condition.Interpolate | sysboundary/setbyuser.cpp:366-406 | output[i] is (1 - s) row[i1][i+1] + s row[i2][i+1] for i < nParams - 1; the rest of output is kept |
| VlasovMover.Ceil | vlasovsolver/vlasovmover.cpp:358 | the integer c with c - 1 < x <= c |
| VlasovMover.SubcyclesCover | vlasovsolver/vlasovmover.cpp:357-359 | n = max(ceil(dt/maxVdt), 1) is at least 1; n steps of maxVdt cover dt and n - 1 do not |
| VlasovMover.FullSteps | vlasovsolver/vlasovmover.cpp:383-387 | while k full steps fit in dt, each step has length maxVdt |
| VlasovMover.SubcyclesSumToDt | vlasovsolver/vlasovmover.cpp:375-387 | every step but the last has length maxVdt, and the lengths sum to dt |
| VlasovMover.LastSubcycle | vlasovsolver/vlasovmover.cpp:383-384 | the last step is positive and at most maxVdt |
| VlasovMover.Filtered | vlasovsolver/vlasovmover.cpp:214-223 | every kept cell passes the test |
| VlasovMover.FilteredMembers | vlasovsolver/vlasovmover.cpp:214-223 | a cell is kept iff it is listed and passes the test |
| VlasovMover.FilteredInOrder | vlasovsolver/vlasovmover.cpp:214-223 | kept cells appear at strictly increasing source positions |
| VlasovMover.FilteredDistinct | vlasovsolver/vlasovmover.cpp:435-444 | filtering a list of distinct cells gives distinct cells |
| VlasovMover.FilteredNarrowed | vlasovsolver/vlasovmover.cpp:458-466 | filtering again with a stricter test is filtering once with it |
| VlasovMover.KeepWhere | vlasovsolver/vlasovmover.cpp:435-444 | the push-back loop computes Filtered |
| VlasovMover.TotalBlocksZero | vlasovsolver/vlasovmover.cpp:440-441 | a cell has no blocks at all iff no population has any |
| VlasovMover.PruningNarrows | vlasovsolver/vlasovmover.cpp:458-466 | a cell pruned at one step stays pruned later |
| VlasovMover.ComputeCellLists | vlasovsolver/vlasovmover.cpp:214-223 | the propagated list holds the cells to translate, and the target list the NOT_SYSBOUNDARY cells, both in grid order |
| VlasovMover.RecordStep | vlasovsolver/vlasovmover.cpp:450-453 | one iteration records the cell's count and keeps the running max |
| VlasovMover.MaxSubcycles | vlasovsolver/vlasovmover.cpp:447-454 | the max is at least every cell's count and equal to one of them, or 0 when there are no cells; ACCSUBCYCLES is recorded |
| VlasovMover.AccelerationStep | vlasovsolver/vlasovmover.cpp:371-419 | each cell's step length is SubcycleDt; blocks are adjusted iff step < globalMax - 1 |
| VlasovMover.CalculateAcceleration | vlasovsolver/vlasovmover.cpp:422-498 | the accelerated cells are the ordinary cells with blocks; globalMax is the largest of othersMax and the local counts; step k calls exactly the cells still subcycled, timed from the pre-call cells; every local cell becomes AfterAcceleration |
| VlasovMover.ClearAcceleratedMoments | vlasovsolver/vlasovmover.cpp:486-498 | every local cell's RHO_V..P_33_V are cleared; nothing else changes |
| VlasovMover.AfterAcceleration | vlasovsolver/vlasovmover.cpp:447-498 | a local cell after acceleration, before the moment kernels (stated by AfterAccelerationSlots) |
| VlasovMover.AfterAccelerationSlots | vlasovsolver/vlasovmover.cpp:447-498 | the _V moments are 0, ACCSUBCYCLES holds an accelerated cell's count, flag, blocks and every other slot are kept |
| VlasovMover.AccelerationComposed | vlasovsolver/vlasovmover.cpp:447-498 | recording the counts on the accelerated cells, then clearing every local cell, gives each local cell AfterAcceleration |
| VlasovMover.SameLimitsSameSteps | vlasovsolver/vlasovmover.cpp:458-466 | maps that agree on every MAXVDT prune and time the subcycle steps alike, so the ACCSUBCYCLES writes do not change the schedule |
| VlasovMover.FilteredAgree | vlasovsolver/vlasovmover.cpp:458-466 | tests that agree on the listed cells filter them alike |
| VlasovMover.Subcycles | vlasovsolver/vlasovmover.cpp:357-359 | getAccerelationSubcycles, max(ceil(dt/maxVdt), 1) (stated by SubcyclesCover) |
| VlasovMover.SubcycleDt | vlasovsolver/vlasovmover.cpp:382-387 | the length of step k: maxVdt, or what is left of dt at the last step (stated by FullSteps, LastSubcycle, SubcyclesSumToDt) |
| VlasovMover.StepCalls | vlasovsolver/vlasovmover.cpp:371-408 | the kernel calls of one subcycle step, each remaining cell with its SubcycleDt (produced by AccelerationStep) |
| VlasovMover.Subcycle | vlasovsolver/vlasovmover.cpp:458-472 | globalMax steps; step k calls the cells with more than k subcycles |
| VlasovMover.RecordedKeepsLimits | vlasovsolver/vlasovmover.cpp:452 | writing ACCSUBCYCLES keeps every MAXVDT |
| VlasovMover.Prune | vlasovsolver/vlasovmover.cpp:460-466 | pruning the previous step's list gives the cells with step < subcycles, in order |
| VlasovMover.ScheduledIff | vlasovsolver/vlasovmover.cpp:458-466 | a cell is accelerated at step k iff it is an accelerated cell with more than k subcycles |
| VlasovMover.SkipRule | vlasovsolver/vlasovmover.cpp:580-584 | moments are skipped iff !doNotSkip and the cell is DO_NOT_COMPUTE, or is a boundary cell beyond layer 1 |
| VlasovMover.ClearedMomentsSlots | vlasovsolver/vlasovmover.cpp:586-593 | clearing zeroes exactly the seven moment slots |
| VlasovMover.CalculateCellVelocityMoments | vlasovsolver/vlasovmover.cpp:573-593 | a skipped cell is kept; otherwise its seven moments are zeroed |
| VlasovMover.InterpolatedMeans | vlasovsolver/vlasovmover.cpp:561-569 | each target holds 0.5 (R + V) of its moment; no other slot changes |
| VlasovMover.InterpolateCell | vlasovsolver/vlasovmover.cpp:562-568 | the seven writes to one cell, in order |
| VlasovMover.CalculateInterpolatedVelocityMoments | vlasovsolver/vlasovmover.cpp:543-571 | ordinary cells get the means; boundary cells are untouched |
| VlasovMover.MaxRDtDecreases | vlasovsolver/vlasovmover.cpp:280-282 | MAXRDT never grows from one sample to the next |
| VlasovMover.MaxRDtBound | vlasovsolver/vlasovmover.cpp:257-282 | MAXRDT is at most REAL_MAX and at most d/\|v\| for every nonzero sampled component |
| VlasovMover.MaxRDtAttained | vlasovsolver/vlasovmover.cpp:257-282 | MAXRDT is REAL_MAX or one of the ratios d/\|v\| |
| VlasovMover.CellLimits | vlasovsolver/vlasovmover.cpp:247-283 | clears the _R moments and computes the MAXRDT limit over the samples |
| VlasovMover.ComputeTranslationLimits | vlasovsolver/vlasovmover.cpp:239-300 | every local cell becomes TranslatedLimits |
| VlasovMover.TranslatedLimits | vlasovsolver/vlasovmover.cpp:247-283 | one cell's _R moments cleared and its MAXRDT limit taken over the samples (stated by CellLimits, MaxRDtBound, MaxRDtAttained) |
| ParGridMain.CalcNbrTypeIDInCube | cpu/pargrid/main_pargrid.cpp:28 | inside the 5x5x5 cube the unsigned-char type ID is k*25+j*5+i, the field solver's numbering |
| ParGridMain.CalcNbrTypeIDDeterminesPosition | cpu/pargrid/main_pargrid.cpp:28 | inside the cube a type ID determines its position |
| ParGridMain.CalcNbrTypeIDInjective | cpu/pargrid/main_pargrid.cpp:28 | distinct positions get distinct IDs; the centre (2,2,2) is 62 |
| ParGridMain.CalcNbrTypeIDWraps | cpu/pargrid/main_pargrid.cpp:28 | outside the cube the char wraps: (6,0,10) collides with (0,0,0) |
| ParGridMain.At | cpu/pargrid/main_pargrid.cpp:74 | mpiGrid[id] is the cell, or NULL when the process does not hold it |
| ParGridMain.FacePosition | cpu/pargrid/main_pargrid.cpp:73-84 | the position queried for each slot lies in the 5x5x5 cube |
| ParGridMain.FaceTypeID | cpu/pargrid/main_pargrid.cpp:73-84 | the type ID slot d queries is the field solver's type ID of its position |
| ParGridMain.FaceTypeIDsAsQueried | cpu/pargrid/main_pargrid.cpp:73-84 | the six queries equal the literal calls findNeighbours makes |
| ParGridMain.FaceSlots | cpu/pargrid/main_pargrid.cpp:73-84 | slot d queries one step along axis d/2, backwards for even d; the six IDs are distinct and not 62; opposite slots sum to 124 |
| ParGridMain.FaceNeighbourNonNull | cpu/pargrid/main_pargrid.cpp:74-84 | a slot is non-NULL iff the query returns an ID other than the sentinel (and the cell is held), and then it points at that cell |
| ParGridMain.FaceNeighbours | cpu/pargrid/main_pargrid.cpp:72-84 | six slots, one per face |
| ParGridMain.FindNeighbours | cpu/pargrid/main_pargrid.cpp:70-87 | all six slots are reset, then filled from their queries; the result is always true |
| ParGridMain.PassCallsHeldCells | cpu/pargrid/main_pargrid.cpp:91-94 | a pass calls the kernel on exactly the held cells of its list, in order |
| ParGridMain.PassCallsMembers | cpu/pargrid/main_pargrid.cpp:118-121 | every held cell, and no other cell, gets a call |
| ParGridMain.MoverState.constructor | cpu/pargrid/main_pargrid.cpp:31-33 | the globals start with six NULL neighbour pointers |
| ParGridMain.MoverState.RunKernel | cpu/pargrid/main_pargrid.cpp:91-94 | the calls made are PassCalls of the list |
| ParGridMain.MoverState.CalculateVelocityMoments | cpu/pargrid/main_pargrid.cpp:89-95 | the moment kernel runs on every held cell |
| ParGridMain.MoverState.CalculateAcceleration | cpu/pargrid/main_pargrid.cpp:113-124 | the acceleration kernel runs on every held cell |
| ParGridMain.MoverState.Translate | cpu/pargrid/main_pargrid.cpp:133-140 | each held cell gets its face neighbours; the "Failed to find neighbours" branch at 135-138 is never taken |
| ParGridMain.MoverState.SpatialStage | cpu/pargrid/main_pargrid.cpp:126-191 | inner cells first, then boundary cells, each through Translate |

## Left out

- The MPI plumbing is left out: `addReceives`/`addSends`, receives and sends, waits, and `MPI_Allreduce`. The global subcycle maximum is a parameter `othersMax`. Both stencil partitions are walks over the same local list, because `transferstencil.h` is not part of this model.
- The derivative and edge passes walk `stencil3.innerCells` and then `boundaryCells`. The model walks the local list in order, since the partition is not part of this model.
- The task-queue variants (fieldsolver/londrillo_delzanna.cpp:983-1282), the commented-out `calculateEdgeElectricField`, and the `PARGRID_WAITANY`/`WAITSOME` branches are left out. Their purpose is to overlap computation with communication.
- OpenMP, `Timer`/`phiprof`, and logging are left out.
- The fast magnetosonic speed (`calculateFastMSspeed*`, which uses `sqrt`) is a parameter. EdgeSimultaneous and its helpers require, as `FieldSolver.IgnoresE`, only that it reads no E slot of its cells, which holds for the source's three estimates. So is `calculateDerivatives` with `limiter`/`MClimiter`, which is defined in `limiters.h`, not part of this model.
- The boundary substitutes `fieldSolverBoundaryCond*`, `determineFace`, `generateTemplateCell`, `copyCellData` (a parameter of SetCellsFromTemplate) and the Vlasov kernels are parameters or call records. Their code is not part of this model.
- Real arithmetic is exact: EPS rounding, `fabs`/`ceil` rounding, and infinities are not modelled. Where `V = rhov/rho` is formed, rho is required to be nonzero.
- A neighbour that the release build reads without a check (`mpiGrid[nbrID]` behind a passing gate) is required to be stored. The debug build exits on it.
- The release-build lookup `boundaryFlags[cellID]` of a missing cell is modelled as flag 0.
- In `loadFile`, the file reading (`fopen`/`fscanf`) and its exit paths are left out. The model takes the rows read, and `false` stands for the exit.
- In SetByUser, the following are left out: `addParameters`, `getParameters`, `applyInitialState`, the electric-field, derivative and Vlasov boundary conditions, `getName` and `getIndex`. They are outside the user-set face logic or only log an error.
- The `random_r` map-order seeding (vlasovsolver/vlasovmover.cpp:390-405), `adjustVelocityBlocks`, the moment accumulation kernels, the translation kernels and `calculateInitialVelocityMoments` are left out. Particle populations collapse to block counts.
- ParGridMain: `initializeMover`/`finalizeMover`, `calculateSimParameters` and `calculateCellParameters` are left out. `calculateSpatialFluxes` and `calculateSpatialPropagation` are modelled by the same `SpatialStage` shape as `calculateSpatialDerivatives`.
- The dccrg stubs (fieldsolver/londrillo_delzanna.cpp:1888-1897) are empty and are not modelled.
- FieldSolverDriver.Solver.InitializeFieldPropagator: the stencil construction is factored into `BuildStencils`. It covers the calls at lines 893-895 as one step.
- SetByUser.FromTemplateFrame: it is about the five parameter writes alone. `copyCellData` (sysboundary/setbyuser.cpp:244) comes after them, in Filled, and is a parameter whose code is not part of this model, so what it copies and keeps is not stated.
- SetByUser.FromTemplateIdempotent: likewise about the parameter writes alone; the whole step Filled is idempotent only if `copyCellData` is.
- SetByUser.Condition.constructor: it requires nParams >= 1. The source accepts nParams = 0; then `interpolate`'s bound `nParams-1` wraps around as an unsigned integer (sysboundary/setbyuser.cpp:400-405) and `loadFile`'s counting loop never stops (:298-303). The model does not reproduce that hazard.
- FieldSolver and FieldSolverDriver: the solver passes run the corrected members of "## Findings": the edge E with the intended speed envelope and upper cells (EdgeElectricField.UpwindSpeeds, AboveOffset), the face averages with their own slots, the intended eighth cell and the shared-face normal B (Reconstruction.FaceAveraged), and the stencil rebuild with `calculateTransferStencil3` (TransferStencils.RebuiltStencil3Complete). The code as written at lines 520-522, 707-709, 1476, 1673, 1699, 1795 and 1810 is modelled only by the as-written members named there.
- VlasovMover.CalculateAcceleration: the moment accumulation after the clear (vlasovsolver/vlasovmover.cpp:500-535) and `adjustVelocityBlocks` are kernels outside this model; the model states the cells as the clear leaves them.
- VlasovMover.Filtered: its ensures states only that kept cells pass the test. The membership iff and the order are separate lemmas (FilteredMembers, FilteredInOrder).

## Findings

| source | as written | input that shows it | evidently intended | confidence | as-written member | corrected member |
|---|---|---|---|---|---|---|
| fieldsolver/londrillo_delzanna.cpp:1795 | the y-face and z-face E are written to `EXFACEX` (also at :1810), so the last write wins there and EXFACEY..EZFACEZ are never written | a cell with E = (1,1,1) in its whole neighbourhood and zeros in its face-E slots: EXFACEY stays 0 | each face's E in its own slots `EXFACEY`, `EXFACEZ` | not executed | Reconstruction.FaceEOverwritten | Reconstruction.FaceAveragedE |
| fieldsolver/londrillo_delzanna.cpp:707-709 | the NE corner of the z edge queries the cell at (-1,-1,+1) but reads `nbrID_NW`, the cell at (0,-1,+1) | any cell whose (0,-1,+1) and (-1,-1,+1) neighbours differ | the fast speed of NE reads the cell above NE | not executed | EdgeElectricField.ZNorthEastReadsAboveNorthWest | EdgeElectricField.AboveOffset |
| fieldsolver/londrillo_delzanna.cpp:1673 | `cep_i1j2k0` reads `nbr_i1j1k0`, so the z-face Ez counts (0,0,-1) twice and never reads (0,1,-1) | E_z(0,0,-1) = 1 and E_z(0,1,-1) = 0: the average is 1/8 too high | the eighth cell is (0,1,-1), as the mask requires | not executed | Reconstruction.ZFaceAsWrittenError | Reconstruction.FaceEUniform |
| fieldsolver/londrillo_delzanna.cpp:520 | the y-edge SE corner raises the backward speeds with `-Vz0 - c_z` (also `-Vx0 - c_x` at :522) instead of `-v + c` | a resting SE corner with wave speed 1 and the other corners' speeds 0: the backward speed is 0 instead of 1 | `-Vz0 + c_z` and `-Vx0 + c_x`, as at the other corners and edges | not executed | EdgeElectricField.SlippedSpeedMissesCorner | EdgeElectricField.UpwindSpeeds |
| fieldsolver/londrillo_delzanna.cpp:1476 | stencil 3 is rebuilt with `calculateTransferStencil2` | any call of propagateFields with recalculateStencils set: stencil 3 drops from 26 to 6 neighbours, losing (0,-1,-1) | `calculateTransferStencil3` | not executed | TransferStencils.RebuildAsWrittenDropsNeighbours | TransferStencils.RebuiltStencil3Complete |
| fieldsolver/londrillo_delzanna.cpp:1699 | seen from the -x neighbour (called at :1776 with I = +1), the normal Bx is that neighbour's own `BX`, on its lower face, not on the shared face | Bx = 1 on the cell's lower face and 0 on the neighbour's lower face: the shared-face value as written is 0, the face mean is 1 | the normal component on the neighbour's upper face, which is the cell's own B_x | not executed | Reconstruction.UpperNormalIsWrongFace | Reconstruction.FaceAveragedNormalB |
