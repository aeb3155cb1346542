/** The user-set system boundary condition of sysboundary/setbyuser.cpp: the
  * faces of the simulation box it applies to, the time series of boundary
  * data read for each face, the per-face template cells made from them, and
  * how cells on those faces are tagged and filled from their face's
  * template.
  *
  * The condition's collaborators defined by the derived classes are
  * parameters here: determineFace (which faces a cell lies on),
  * generateTemplateCell (a face's template at time t) and copyCellData
  * (the copy of a template's data into a cell). The file reading of
  * loadFile is replaced by the rows it reads. */
module SetByUser {

  import opened NeighbourTopology
  import opened CellState

  /** The face names in facesToProcess order. */
  const FACE_NAMES: seq<string> := ["x+", "x-", "y+", "y-", "z+", "z-"]

  /** Six per-face booleans, in the order x+, x-, y+, y-, z+, z-. */
  type FaceFlags = f: seq<bool> | |f| == 6 witness [false, false, false, false, false, false]

  /** determineFace: the faces a cell with the given centre and size lies on. */
  type FaceTest = (real, real, real, real, real, real) -> FaceFlags

  /** generateTemplateCell: a face's template parameters at time t, from its
    * previous template, its boundary data and the face number. */
  type TemplateGenerator = (Params, Dataset, nat, real) -> Params

  /** copyCellData: a cell after the data of the template with the given
    * parameters is copied into it. */
  type CellCopy = (Params, SpatialCell) -> SpatialCell

  /** One line of a boundary-data file (its time first), and a whole file. */
  type Row = seq<real>
  type Dataset = seq<Row>

  // ---------------------------------------------------------------------
  // Faces to process

  /** One pass of the face-name loop: each of the six tests may set its flag. */
  function Marked(f: FaceFlags, name: string): FaceFlags
  {
    var f0 := if name == "x+" then f[0 := true] else f;
    var f1 := if name == "x-" then f0[1 := true] else f0;
    var f2 := if name == "y+" then f1[2 := true] else f1;
    var f3 := if name == "y-" then f2[3 := true] else f2;
    var f4 := if name == "z+" then f3[4 := true] else f3;
    if name == "z-" then f4[5 := true] else f4
  }

  /** The flags after all flags are cleared and faceList is walked in order. */
  function FacesNamed(faceList: seq<string>): FaceFlags
  {
    if |faceList| == 0 then [false, false, false, false, false, false]
    else Marked(FacesNamed(faceList[..|faceList| - 1]), faceList[|faceList| - 1])
  }

  /** A face is processed iff its name occurs in the list. */
  lemma {:induction false} FacesNamedIff(faceList: seq<string>, i: nat)
    requires i < 6
    ensures FacesNamed(faceList)[i] <==> FACE_NAMES[i] in faceList
  {
    if |faceList| > 0 {
      var init := faceList[..|faceList| - 1];
      FacesNamedIff(init, i);
      assert faceList == init + [faceList[|faceList| - 1]];
    }
  }

  /** Strings that name no face change nothing, wherever they stand. */
  lemma UnrecognisedIgnored(before: seq<string>, name: string, after: seq<string>)
    requires name !in FACE_NAMES
    ensures FacesNamed(before + [name] + after) == FacesNamed(before + after)
  {
    forall i | 0 <= i < 6
      ensures FacesNamed(before + [name] + after)[i] == FacesNamed(before + after)[i]
    {
      FacesNamedIff(before + [name] + after, i);
      FacesNamedIff(before + after, i);
      assert FACE_NAMES[i] != name;
      assert FACE_NAMES[i] in before + [name] + after <==> FACE_NAMES[i] in before + after;
    }
  }

  /** Pointwise conjunction of two flag arrays. */
  function Both(a: FaceFlags, b: FaceFlags): (r: FaceFlags)
    ensures forall i :: 0 <= i < 6 ==> (r[i] <==> a[i] && b[i])
  {
    seq(6, i requires 0 <= i < 6 => a[i] && b[i])
  }

  /** The first set flag at or after from, or |f| when there is none. */
  function FirstSet(f: seq<bool>, from: nat): (j: nat)
    requires from <= |f|
    ensures from <= j <= |f|
    ensures j < |f| ==> f[j]
    ensures forall i :: from <= i < j ==> !f[i]
    decreases |f| - from
  {
    if from == |f| then |f| else if f[from] then from else FirstSet(f, from + 1)
  }

  /** The first face in index order, given by its defining property. */
  lemma FirstSetUnique(f: seq<bool>, j: nat)
    requires j <= |f| && (j < |f| ==> f[j])
    requires forall i :: 0 <= i < j ==> !f[i]
    ensures FirstSet(f, 0) == j
  {
  }

  /** The faces a cell lies on, judged at its centre. */
  function OnFaces(p: Params, determineFace: FaceTest): FaceFlags
  {
    determineFace(p[XCRD] + 0.5 * p[DX], p[YCRD] + 0.5 * p[DY], p[ZCRD] + 0.5 * p[DZ],
                  p[DX], p[DY], p[DZ])
  }

  /** Some face is both processed and touched. */
  predicate Touches(faces: FaceFlags, on: FaceFlags)
  {
    exists j :: 0 <= j < 6 && faces[j] && on[j]
  }

  // ---------------------------------------------------------------------
  // Per-cell updates

  /** assignSysBoundary on one cell. */
  function Assigned(c: SpatialCell, faces: FaceFlags, determineFace: FaceTest, index: nat): SpatialCell
  {
    if c.sysBoundaryFlag != DO_NOT_COMPUTE && Touches(faces, OnFaces(c.parameters, determineFace))
    then c.(sysBoundaryFlag := index)
    else c
  }

  /** Tagging a cell a second time changes nothing: the tag never moves the
    * cell, so it touches the same faces. */
  lemma AssignedIdempotent(c: SpatialCell, faces: FaceFlags, determineFace: FaceTest, index: nat)
    ensures Assigned(Assigned(c, faces, determineFace, index), faces, determineFace, index)
         == Assigned(c, faces, determineFace, index)
  {
  }

  /** The slots setCellsFromTemplate writes. */
  predicate TemplateSlot(s: nat)
  {
    s == PERBX || s == PERBY || s == PERBZ || s == RHOLOSSADJUST || s == RHOLOSSVELBOUNDARY
  }

  /** The perturbed B of the template, with the loss counters cleared. */
  function Templated(p: Params, tpl: Params): Params
  {
    p[PERBX := tpl[PERBX]][PERBY := tpl[PERBY]][PERBZ := tpl[PERBZ]]
     [RHOLOSSADJUST := 0.0][RHOLOSSVELBOUNDARY := 0.0]
  }

  /** setCellsFromTemplate on one cell: a cell of this condition takes the
    * template of its first face that is both processed and touched. */
  function FromTemplate(c: SpatialCell, faces: FaceFlags, tpls: seq<Params>,
                        determineFace: FaceTest, index: nat): SpatialCell
    requires |tpls| == 6
  {
    if c.sysBoundaryFlag != index then c
    else
      var j := FirstSet(Both(faces, OnFaces(c.parameters, determineFace)), 0);
      if j < 6 then c.(parameters := Templated(c.parameters, tpls[j])) else c
  }

  /** setCellsFromTemplate on one cell in full: the parameter writes of
    * FromTemplate, then copyCellData from the same face's template. */
  function Filled(c: SpatialCell, faces: FaceFlags, tpls: seq<Params>,
                  determineFace: FaceTest, index: nat, copy: CellCopy): SpatialCell
    requires |tpls| == 6
  {
    if c.sysBoundaryFlag != index then c
    else
      var j := FirstSet(Both(faces, OnFaces(c.parameters, determineFace)), 0);
      if j < 6 then copy(tpls[j], FromTemplate(c, faces, tpls, determineFace, index)) else c
  }

  /** A cell of the condition on a processed face is the copy from the
    * first such face's template into the cell with that template's PERB
    * and cleared loss counters; every other cell is left alone. */
  lemma FilledFromFirstFace(c: SpatialCell, faces: FaceFlags, tpls: seq<Params>,
                            determineFace: FaceTest, index: nat, copy: CellCopy, j: nat)
    requires |tpls| == 6 && j < 6
    requires c.sysBoundaryFlag == index
    requires faces[j] && OnFaces(c.parameters, determineFace)[j]
    requires forall i :: 0 <= i < j ==> !(faces[i] && OnFaces(c.parameters, determineFace)[i])
    ensures Filled(c, faces, tpls, determineFace, index, copy)
         == copy(tpls[j], c.(parameters := Templated(c.parameters, tpls[j])))
  {
    FirstSetUnique(Both(faces, OnFaces(c.parameters, determineFace)), j);
  }

  /** A cell of another condition, or on no processed face, is left alone. */
  lemma FilledElsewhere(c: SpatialCell, faces: FaceFlags, tpls: seq<Params>,
                        determineFace: FaceTest, index: nat, copy: CellCopy)
    requires |tpls| == 6
    requires c.sysBoundaryFlag != index || !Touches(faces, OnFaces(c.parameters, determineFace))
    ensures Filled(c, faces, tpls, determineFace, index, copy) == c
  {
  }

  /** With a copy that changes nothing, the fill is the parameter writes. */
  lemma FilledWithoutCopy(c: SpatialCell, faces: FaceFlags, tpls: seq<Params>,
                          determineFace: FaceTest, index: nat)
    requires |tpls| == 6
    ensures Filled(c, faces, tpls, determineFace, index, (tpl, x) => x)
         == FromTemplate(c, faces, tpls, determineFace, index)
  {
  }

  /** Only the parameters of the condition's own cells change, and only in
    * the five template slots; PERB is the chosen face's template's. */
  lemma FromTemplateFrame(c: SpatialCell, faces: FaceFlags, tpls: seq<Params>,
                          determineFace: FaceTest, index: nat, s: nat)
    requires |tpls| == 6 && s < SIZE_CELLPARAMS
    ensures var r := FromTemplate(c, faces, tpls, determineFace, index);
      r.sysBoundaryFlag == c.sysBoundaryFlag && r.sysBoundaryLayer == c.sysBoundaryLayer &&
      r.blocks == c.blocks && (r.parameters[s] != c.parameters[s] ==> TemplateSlot(s))
  {
  }

  /** The face a template copy uses is processed and touched, and it is the
    * first such face. */
  lemma FromTemplateFace(c: SpatialCell, faces: FaceFlags, tpls: seq<Params>,
                         determineFace: FaceTest, index: nat, j: nat, a: nat)
    requires |tpls| == 6 && j < 6 && a < 3
    requires c.sysBoundaryFlag == index
    requires faces[j] && OnFaces(c.parameters, determineFace)[j]
    requires forall i :: 0 <= i < j ==> !(faces[i] && OnFaces(c.parameters, determineFace)[i])
    ensures FromTemplate(c, faces, tpls, determineFace, index).parameters[PERBX + a] == tpls[j][PERBX + a]
    ensures FromTemplate(c, faces, tpls, determineFace, index).parameters[RHOLOSSADJUST] == 0.0
    ensures FromTemplate(c, faces, tpls, determineFace, index).parameters[RHOLOSSVELBOUNDARY] == 0.0
  {
    FirstSetUnique(Both(faces, OnFaces(c.parameters, determineFace)), j);
  }

  /** Filling a cell twice from the templates is filling it once: the copy
    * leaves the cell's position and size, and so its faces, alone. */
  lemma {:induction false} FromTemplateIdempotent(c: SpatialCell, faces: FaceFlags, tpls: seq<Params>,
                                                  determineFace: FaceTest, index: nat)
    requires |tpls| == 6
    ensures FromTemplate(FromTemplate(c, faces, tpls, determineFace, index), faces, tpls, determineFace, index)
         == FromTemplate(c, faces, tpls, determineFace, index)
  {
    var r := FromTemplate(c, faces, tpls, determineFace, index);
    if c.sysBoundaryFlag == index && r != c {
      var p := c.parameters;
      var q := r.parameters;
      assert q[XCRD] == p[XCRD] && q[YCRD] == p[YCRD] && q[ZCRD] == p[ZCRD];
      assert q[DX] == p[DX] && q[DY] == p[DY] && q[DZ] == p[DZ];
      assert OnFaces(q, determineFace) == OnFaces(p, determineFace);
      var j := FirstSet(Both(faces, OnFaces(p, determineFace)), 0);
      assert q == Templated(p, tpls[j]);
      assert Templated(q, tpls[j]) == q;
    }
  }

  /** The template value the field solver takes for one B component: the
    * current perturbed B at dt == 0, the half-step one otherwise. */
  function TemplateB(tpl: Params, dt: real, component: nat): real
    requires component < 3
  {
    if dt == 0.0 then tpl[PERBX + component] else tpl[PERBX_DT2 + component]
  }

  /** fieldSolverBoundaryCondMagneticField's value: from the first face the
    * cell touches, processed or not, and 0 when it touches none. */
  function BoundaryB(on: FaceFlags, tpls: seq<Params>, dt: real, component: nat): real
    requires |tpls| == 6 && component < 3
  {
    var j := FirstSet(on, 0);
    if j < 6 then TemplateB(tpls[j], dt, component) else 0.0
  }

  /** When the first face a cell touches is processed, the field solver's
    * boundary B and the template copy read the same template. */
  lemma BoundaryBMatchesTemplate(c: SpatialCell, faces: FaceFlags, tpls: seq<Params>,
                                 determineFace: FaceTest, index: nat, a: nat)
    requires |tpls| == 6 && a < 3 && c.sysBoundaryFlag == index
    requires var j := FirstSet(OnFaces(c.parameters, determineFace), 0); j < 6 && faces[j]
    ensures BoundaryB(OnFaces(c.parameters, determineFace), tpls, 0.0, a)
         == FromTemplate(c, faces, tpls, determineFace, index).parameters[PERBX + a]
  {
    var on := OnFaces(c.parameters, determineFace);
    var j := FirstSet(on, 0);
    FirstSetUnique(Both(faces, on), j);
  }

  /** A cell that touches no face gets 0 from the field-solver boundary. */
  lemma BoundaryBOffFaces(on: FaceFlags, tpls: seq<Params>, dt: real, component: nat)
    requires |tpls| == 6 && component < 3
    requires forall i :: 0 <= i < 6 ==> !on[i]
    ensures BoundaryB(on, tpls, dt, component) == 0.0
  {
    FirstSetUnique(on, 6);
  }

  // ---------------------------------------------------------------------
  // Boundary data

  /** Every row holds at least its time. */
  predicate Timed(d: Dataset)
  {
    forall q :: 0 <= q < |d| ==> |d[q]| >= 1
  }

  /** Every row holds n values. */
  predicate Rectangular(d: Dataset, n: nat)
  {
    forall q :: 0 <= q < |d| ==> |d[q]| == n
  }

  /** No row's time is smaller than the previous row's. */
  predicate Ascending(d: Dataset)
    requires Timed(d)
  {
    forall line :: 1 <= line < |d| ==> d[line - 1][0] <= d[line][0]
  }

  /** Times in non-decreasing order between any two rows. */
  predicate Sorted(d: Dataset)
    requires Timed(d)
  {
    forall i, j :: 0 <= i <= j < |d| ==> d[i][0] <= d[j][0]
  }

  /** The file loadFile accepts: at least one row, times ascending. */
  predicate Accepted(d: Dataset)
  {
    |d| >= 1 && Timed(d) && Ascending(d)
  }

  lemma {:induction false} AscendingChain(d: Dataset, i: nat, j: nat)
    requires Timed(d) && Ascending(d) && i <= j < |d|
    ensures d[i][0] <= d[j][0]
    decreases j - i
  {
    if i < j {
      AscendingChain(d, i, j - 1);
    }
  }

  /** The check of adjacent rows is the check of all pairs. */
  lemma AscendingSorted(d: Dataset)
    requires Timed(d)
    ensures Ascending(d) <==> Sorted(d)
  {
    if Ascending(d) {
      forall i, j | 0 <= i <= j < |d|
        ensures d[i][0] <= d[j][0]
      {
        AscendingChain(d, i, j);
      }
    }
  }

  /** Each row's time strictly after the previous row's. */
  predicate StrictlyAscending(d: Dataset)
    requires Timed(d)
  {
    forall line :: 1 <= line < |d| ==> d[line - 1][0] < d[line][0]
  }

  lemma {:induction false} StrictChain(d: Dataset, i: nat, j: nat)
    requires Timed(d) && StrictlyAscending(d) && i < j < |d|
    ensures d[i][0] < d[j][0]
    decreases j - i
  {
    if i + 1 < j {
      StrictChain(d, i, j - 1);
    }
  }

  /** The first row at or after from whose time is at least t, or |d|. */
  function FirstAtOrAfter(d: Dataset, t: real, from: nat): (i: nat)
    requires Timed(d) && from <= |d|
    ensures from <= i <= |d|
    ensures i < |d| ==> d[i][0] >= t
    ensures forall j :: from <= j < i ==> d[j][0] < t
    decreases |d| - from
  {
    if from == |d| then |d| else if d[from][0] >= t then from else FirstAtOrAfter(d, t, from + 1)
  }

  lemma FirstAtOrAfterUnique(d: Dataset, t: real, i: nat)
    requires Timed(d) && i <= |d| && (i < |d| ==> d[i][0] >= t)
    requires forall j :: 0 <= j < i ==> d[j][0] < t
    ensures FirstAtOrAfter(d, t, 0) == i
  {
  }

  /** The two rows interpolate blends, and the weight s of the later one. */
  datatype Bracket = Bracket(i1: nat, i2: nat, s: real)

  /** The rows and weight interpolate chooses for time t. */
  function Bracketing(d: Dataset, t: real): (b: Bracket)
    requires |d| >= 1 && Timed(d)
    ensures b.i1 <= b.i2 < |d|
  {
    if t < d[0][0] then Bracket(0, 0, 0.0)
    else
      var i2 := FirstAtOrAfter(d, t, 0);
      if i2 == |d| then Bracket(|d| - 1, |d| - 1, 0.0)
      else if i2 == 0 then Bracket(0, 0, 0.0)
      else Bracket(i2 - 1, i2, (t - d[i2 - 1][0]) / (d[i2][0] - d[i2 - 1][0]))
  }

  /** Before the first time, and after the last, the end row is used alone. */
  lemma BracketClamped(d: Dataset, t: real)
    requires |d| >= 1 && Timed(d)
    ensures t <= d[0][0] ==> Bracketing(d, t) == Bracket(0, 0, 0.0)
    ensures (forall j :: 0 <= j < |d| ==> d[j][0] < t) ==> Bracketing(d, t) == Bracket(|d| - 1, |d| - 1, 0.0)
  {
    if t <= d[0][0] && !(t < d[0][0]) {
      FirstAtOrAfterUnique(d, t, 0);
    }
  }

  lemma WeightBetween(a: real, t: real, b: real)
    requires a < t <= b
    ensures 0.0 < (t - a) / (b - a) <= 1.0
  {
    var s := (t - a) / (b - a);
    assert s * (b - a) == t - a;
  }

  /** Otherwise i2 is the first row whose time is at least t and i1 the row
    * before it, so t lies in (time(i1), time(i2)] and the weight in (0, 1];
    * no ordering of the file is needed for this. */
  lemma BracketNormal(d: Dataset, t: real, k: nat)
    requires Timed(d) && 0 < k < |d|
    requires d[k][0] >= t && forall j :: 0 <= j < k ==> d[j][0] < t
    ensures var b := Bracketing(d, t);
      b.i2 == k && b.i1 == k - 1 && d[b.i1][0] < t <= d[b.i2][0] && 0.0 < b.s <= 1.0
  {
    FirstAtOrAfterUnique(d, t, k);
    WeightBetween(d[k - 1][0], t, d[k][0]);
  }

  /** Output value i of interpolate for a chosen bracket. */
  function Blended(d: Dataset, n: nat, b: Bracket, i: nat): real
    requires Rectangular(d, n) && b.i1 < |d| && b.i2 < |d| && i + 1 < n
  {
    (1.0 - b.s) * d[b.i1][i + 1] + b.s * d[b.i2][i + 1]
  }

  /** With strictly ascending times, interpolating at a sample time gives
    * exactly that row's values. */
  lemma InterpolateAtSample(d: Dataset, n: nat, k: nat, i: nat)
    requires |d| >= 1 && n >= 1 && Rectangular(d, n) && Timed(d) && StrictlyAscending(d)
    requires k < |d| && i + 1 < n
    ensures Blended(d, n, Bracketing(d, d[k][0]), i) == d[k][i + 1]
  {
    var t := d[k][0];
    forall j | 0 <= j < k
      ensures d[j][0] < t
    {
      StrictChain(d, j, k);
    }
    FirstAtOrAfterUnique(d, t, k);
    if k > 0 {
      assert (t - d[k - 1][0]) / (d[k][0] - d[k - 1][0]) == 1.0;
    }
  }

  // ---------------------------------------------------------------------
  // Grid-wide updates

  /** One user-set boundary condition: its index among the system boundary
    * types, the number of values per data line, the face names it was
    * configured with, and its per-face state. */
  class Condition {
    const index: nat
    const nParams: nat
    const faceList: seq<string>
    const facesToProcess: array<bool>
    const inputData: array<Dataset>
    const templateCells: array<Params>

    /** Six faces of each kind of state; each data line starts with a time. */
    ghost predicate Shaped()
      reads this
    {
      facesToProcess.Length == 6 && inputData.Length == 6 && templateCells.Length == 6 && nParams >= 1
    }

    /** Every face has at least one data line of nParams values. */
    ghost predicate Loaded()
      reads this, inputData
      requires Shaped()
    {
      forall i :: 0 <= i < 6 ==> |inputData[i]| >= 1 && Rectangular(inputData[i], nParams)
    }

    constructor (index: nat, nParams: nat, faceList: seq<string>)
      requires nParams >= 1
      ensures Shaped() && this.index == index && this.nParams == nParams && this.faceList == faceList
      ensures fresh(facesToProcess) && fresh(inputData) && fresh(templateCells)
    {
      this.index := index;
      this.nParams := nParams;
      this.faceList := faceList;
      facesToProcess := new bool[6](_ => false);
      inputData := new Dataset[6](_ => []);
      templateCells := new Params[6](_ => seq(SIZE_CELLPARAMS, _ => 0.0));
    }

    function Faces(): FaceFlags
      reads this, facesToProcess
      requires Shaped()
    {
      facesToProcess[..]
    }

    /** One face name sets at most its own flag. */
    method MarkFace(name: string)
      requires Shaped()
      modifies facesToProcess
      ensures facesToProcess[..] == Marked(old(facesToProcess[..]), name)
    {
      if name == "x+" { facesToProcess[0] := true; }
      if name == "x-" { facesToProcess[1] := true; }
      if name == "y+" { facesToProcess[2] := true; }
      if name == "y-" { facesToProcess[3] := true; }
      if name == "z+" { facesToProcess[4] := true; }
      if name == "z-" { facesToProcess[5] := true; }
    }

    /** initSysBoundary: select the faces named in faceList, load their data
      * and build their templates. A file loadFile rejects ends the run
      * there; the model returns false at that point. */
    method InitSysBoundary(t: real, contents: seq<Dataset>, generate: TemplateGenerator)
      returns (success: bool)
      requires Shaped()
      requires |contents| == 6 && forall i :: 0 <= i < 6 ==> Rectangular(contents[i], nParams)
      modifies facesToProcess, inputData, templateCells
      ensures facesToProcess[..] == FacesNamed(faceList)
      ensures success <==> forall i :: 0 <= i < 6 && facesToProcess[i] ==> Accepted(contents[i])
      ensures success ==> Loaded()
      ensures success ==> forall i :: 0 <= i < 6 && facesToProcess[i] ==> inputData[i] == contents[i]
      ensures success ==> forall i :: 0 <= i < 6 && !facesToProcess[i] ==>
        |inputData[i]| == 1 && forall j :: 0 <= j < nParams ==> inputData[i][0][j] == -1.0
      ensures success ==> forall i :: 0 <= i < 6 ==>
        templateCells[i] == if facesToProcess[i] then generate(old(templateCells[i]), inputData[i], i, t)
                            else old(templateCells[i])
    {
      for i := 0 to 6
        modifies facesToProcess
        invariant forall j :: 0 <= j < i ==> !facesToProcess[j]
      {
        facesToProcess[i] := false;
      }
      assert facesToProcess[..] == FacesNamed(faceList[..0]);
      for k := 0 to |faceList|
        modifies facesToProcess
        invariant facesToProcess[..] == FacesNamed(faceList[..k])
      {
        MarkFace(faceList[k]);
        assert faceList[..k + 1][..k] == faceList[..k];
      }
      assert faceList[..|faceList|] == faceList;
      success := LoadInputData(contents);
      if !success {
        return;
      }
      var generated := GenerateTemplateCells(t, generate);
      success := success && generated;
    }

    /** A dummy data line: nParams values, all -1. */
    method DummyRow() returns (row: Row)
      ensures |row| == nParams && forall j :: 0 <= j < nParams ==> row[j] == -1.0
    {
      row := [];
      for j := 0 to nParams
        invariant |row| == j && forall i :: 0 <= i < j ==> row[i] == -1.0
      {
        row := row + [-1.0];
      }
    }

    /** loadFile's checks on the lines read: at least one, in ascending time
      * order. ok is false where the source exits. */
    method LoadFile(rows: Dataset) returns (ok: bool, dataset: Dataset)
      requires Timed(rows)
      ensures ok <==> Accepted(rows)
      ensures ok ==> dataset == rows
    {
      if |rows| < 1 {
        return false, [];
      }
      dataset := rows;
      for line := 1 to |rows|
        invariant forall l :: 1 <= l < line ==> rows[l - 1][0] <= rows[l][0]
      {
        if rows[line][0] < rows[line - 1][0] {
          return false, dataset;
        }
      }
      ok := true;
    }

    /** loadInputData: a processed face's lines from its file, one dummy line
      * for every other face. */
    method LoadInputData(contents: seq<Dataset>) returns (ok: bool)
      requires Shaped()
      requires |contents| == 6 && forall i :: 0 <= i < 6 ==> Rectangular(contents[i], nParams)
      modifies inputData
      ensures ok <==> forall i :: 0 <= i < 6 && facesToProcess[i] ==> Accepted(contents[i])
      ensures ok ==> Loaded()
      ensures ok ==> forall i :: 0 <= i < 6 && facesToProcess[i] ==> inputData[i] == contents[i]
      ensures ok ==> forall i :: 0 <= i < 6 && !facesToProcess[i] ==>
        |inputData[i]| == 1 && forall j :: 0 <= j < nParams ==> inputData[i][0][j] == -1.0
    {
      for i := 0 to 6
        invariant forall j :: 0 <= j < i && facesToProcess[j] ==> Accepted(contents[j]) && inputData[j] == contents[j]
        invariant forall j :: 0 <= j < i && !facesToProcess[j] ==>
          |inputData[j]| == 1 && |inputData[j][0]| == nParams &&
          forall x :: 0 <= x < nParams ==> inputData[j][0][x] == -1.0
      {
        if facesToProcess[i] {
          var fileOk, d := LoadFile(contents[i]);
          if !fileOk {
            return false;
          }
          inputData[i] := d;
        } else {
          var row := DummyRow();
          inputData[i] := [row];
        }
      }
      ok := true;
    }

    /** generateTemplateCells: a new template for every processed face. */
    method GenerateTemplateCells(t: real, generate: TemplateGenerator) returns (ok: bool)
      requires Shaped()
      modifies templateCells
      ensures ok
      ensures forall i :: 0 <= i < 6 ==>
        templateCells[i] == if facesToProcess[i] then generate(old(templateCells[i]), inputData[i], i, t)
                            else old(templateCells[i])
    {
      for i := 0 to 6
        invariant forall j :: 0 <= j < 6 ==>
          templateCells[j] == if j < i && facesToProcess[j] then generate(old(templateCells[j]), inputData[j], j, t)
                              else old(templateCells[j])
      {
        if facesToProcess[i] {
          templateCells[i] := generate(templateCells[i], inputData[i], i, t);
        }
      }
      ok := true;
    }

    /** The OR over the faces of "processed and touched". */
    method AnyProcessedFace(on: FaceFlags) returns (doAssign: bool)
      requires Shaped()
      ensures doAssign <==> Touches(Faces(), on)
    {
      doAssign := false;
      for j := 0 to 6
        invariant doAssign <==> exists i :: 0 <= i < j && facesToProcess[i] && on[i]
      {
        doAssign := doAssign || (facesToProcess[j] && on[j]);
      }
    }

    /** The first face, in index order, whose flag is set. */
    method FirstFace(f: FaceFlags) returns (j: nat)
      ensures j == FirstSet(f, 0)
    {
      j := 0;
      while j < 6
        invariant j <= 6 && forall i :: 0 <= i < j ==> !f[i]
      {
        if f[j] {
          break;
        }
        j := j + 1;
      }
      FirstSetUnique(f, j);
    }

    /** assignSysBoundary: every local cell that may be computed and touches
      * a processed face is tagged with this condition's index. */
    method AssignSysBoundary(grid: SpatialGrid, determineFace: FaceTest) returns (ok: bool)
      requires Shaped() && grid.Valid()
      modifies grid
      ensures ok && grid.Valid()
      ensures EachLocal(old(grid.cells), grid.cells, grid.local,
                        c => Assigned(c, old(Faces()), determineFace, index))
    {
      ghost var m0 := grid.cells;
      var faces := Faces();
      ghost var f := c => Assigned(c, faces, determineFace, index);
      for q := 0 to |grid.local|
        invariant DoneUpTo(m0, grid.cells, grid.local, f, q)
      {
        var c := grid.local[q];
        var cell := grid.cells[c];
        if cell.sysBoundaryFlag == DO_NOT_COMPUTE {
          LocalKeep(m0, grid.cells, grid.local, f, q);
          continue;
        }
        var doAssign := AnyProcessedFace(OnFaces(cell.parameters, determineFace));
        if doAssign {
          LocalStep(m0, grid.cells, grid.local, f, q, cell.(sysBoundaryFlag := index));
          grid.cells := grid.cells[c := cell.(sysBoundaryFlag := index)];
        } else {
          LocalKeep(m0, grid.cells, grid.local, f, q);
        }
      }
      ok := true;
    }

    /** setCellsFromTemplate: every local cell of this condition takes PERB
      * from the template of its first processed face, has its loss
      * counters cleared, and then gets that template's data copied in. */
    method SetCellsFromTemplate(grid: SpatialGrid, determineFace: FaceTest, copy: CellCopy) returns (ok: bool)
      requires Shaped() && grid.Valid()
      modifies grid
      ensures ok && grid.Valid()
      ensures EachLocal(old(grid.cells), grid.cells, grid.local,
                        c => Filled(c, old(Faces()), old(templateCells[..]), determineFace, index, copy))
    {
      ghost var m0 := grid.cells;
      var faces := Faces();
      var tpls := templateCells[..];
      ghost var f := c => Filled(c, faces, tpls, determineFace, index, copy);
      for q := 0 to |grid.local|
        invariant DoneUpTo(m0, grid.cells, grid.local, f, q)
      {
        var c := grid.local[q];
        var cell := grid.cells[c];
        if cell.sysBoundaryFlag != index {
          LocalKeep(m0, grid.cells, grid.local, f, q);
          continue;
        }
        var j := FirstFace(Both(faces, OnFaces(cell.parameters, determineFace)));
        if j < 6 {
          var x := cell.(parameters := Templated(cell.parameters, templateCells[j]));
          x := copy(templateCells[j], x);
          LocalStep(m0, grid.cells, grid.local, f, q, x);
          grid.cells := grid.cells[c := x];
        } else {
          LocalKeep(m0, grid.cells, grid.local, f, q);
        }
      }
      ok := true;
    }

    /** fieldSolverBoundaryCondMagneticField: a B component from the
      * template of the first face the cell touches. */
    method FieldSolverBoundaryCondMagneticField(grid: SpatialGrid, cellID: CellID, dt: real,
                                                component: nat, determineFace: FaceTest)
      returns (result: real)
      requires Shaped() && cellID in grid.cells && component < 3
      ensures result == BoundaryB(OnFaces(grid.cells[cellID].parameters, determineFace),
                                  templateCells[..], dt, component)
    {
      result := 0.0;
      var cell := grid.cells[cellID];
      var j := FirstFace(OnFaces(cell.parameters, determineFace));
      if j < 6 {
        if dt == 0.0 {
          result := templateCells[j][PERBX + component];
        } else {
          result := templateCells[j][PERBX_DT2 + component];
        }
      }
    }

    /** The search of interpolate: the rows around time t and the weight. */
    method FindBracket(idx: nat, t: real) returns (i1: nat, i2: nat, s: real)
      requires Shaped() && Loaded() && idx < 6
      ensures Bracket(i1, i2, s) == Bracketing(inputData[idx], t)
    {
      var d := inputData[idx];
      var found := false;
      i1, i2 := 0, 0;
      if t < d[0][0] {
        s := 0.0;
      } else {
        var i := 0;
        while i < |d|
          invariant 0 <= i <= |d| && !found
          invariant forall j :: 0 <= j < i ==> d[j][0] < t
        {
          if d[i][0] >= t {
            found := true;
            i2 := i;
            break;
          }
          i := i + 1;
        }
        FirstAtOrAfterUnique(d, t, i);
        if found {
          if i2 == 0 {
            i1, i2, s := 0, 0, 0.0;
          } else {
            i1 := i2 - 1;
            s := (t - d[i1][0]) / (d[i2][0] - d[i1][0]);
          }
        } else {
          i1, i2, s := |d| - 1, |d| - 1, 0.0;
        }
      }
    }

    /** interpolate: the boundary values at time t, written to output. */
    method Interpolate(idx: nat, t: real, output: array<real>)
      requires Shaped() && Loaded() && idx < 6
      requires output.Length >= nParams - 1
      modifies output
      ensures forall i :: 0 <= i < nParams - 1 ==>
        output[i] == Blended(inputData[idx], nParams, Bracketing(inputData[idx], t), i)
      ensures forall i :: nParams - 1 <= i < output.Length ==> output[i] == old(output[i])
    {
      var i1, i2, s := FindBracket(idx, t);
      var d := inputData[idx];
      var s1 := 1.0 - s;
      for i := 0 to nParams - 1
        invariant forall j :: 0 <= j < i ==> output[j] == s1 * d[i1][j + 1] + s * d[i2][j + 1]
        invariant forall j :: i <= j < output.Length ==> output[j] == old(output[j])
      {
        output[i] := s1 * d[i1][i + 1] + s * d[i2][i + 1];
      }
    }
  }
}
