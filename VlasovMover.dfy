/** The scheduling rules of the Vlasov solver in vlasovsolver/vlasovmover.cpp:
  * which cells are translated and accelerated, how many acceleration
  * subcycles each cell takes and how long each is, the spatial time-step
  * limit MAXRDT, and the bookkeeping of the velocity moments around the
  * kinetic kernels. The kernels themselves (translation, acceleration,
  * moment accumulation, block adjustment) are not part of this model. */
module VlasovMover {

  import opened NeighbourTopology
  import opened CellState

  // ---------------------------------------------------------------------
  // Acceleration subcycles

  /** The real ceiling. */
  function Ceil(x: real): (c: int)
    ensures (c - 1) as real < x <= c as real
  {
    -((-x).Floor)
  }

  /** getAccerelationSubcycles: ceil(dt / maxVdt), but at least one. */
  function Subcycles(dt: real, maxVdt: real): int
    requires maxVdt != 0.0
  {
    var c := Ceil(dt / maxVdt);
    if c < 1 then 1 else c
  }

  lemma ScaleBelow(x: real, y: real, m: real)
    requires m > 0.0 && x < y
    ensures x * m < y * m
  {
  }

  lemma ScaleAtMost(x: real, y: real, m: real)
    requires m > 0.0 && x <= y
    ensures x * m <= y * m
  {
  }

  /** For a positive limit and a positive step, n subcycles of maxVdt cover
    * dt and n - 1 do not; a step no longer than maxVdt takes one subcycle. */
  lemma SubcyclesCover(dt: real, maxVdt: real)
    requires maxVdt > 0.0 && dt > 0.0
    ensures var n := Subcycles(dt, maxVdt);
      n >= 1 && (n - 1) as real * maxVdt < dt <= n as real * maxVdt
    ensures dt <= maxVdt ==> Subcycles(dt, maxVdt) == 1
  {
    var x := dt / maxVdt;
    assert x * maxVdt == dt;
    var c := Ceil(x);
    assert c >= 1;
    ScaleBelow((c - 1) as real, x, maxVdt);
    ScaleAtMost(x, c as real, maxVdt);
    if dt <= maxVdt {
      assert x <= 1.0 by {
        if x > 1.0 {
          ScaleBelow(1.0, x, maxVdt);
        }
      }
    }
  }

  /** The length of subcycle step of a cell: maxVdt, except that the step
    * that would pass dt is cut short to end exactly at dt. */
  function SubcycleDt(step: nat, maxVdt: real, dt: real): real
  {
    if (step + 1) as real * maxVdt > dt then dt - step as real * maxVdt else maxVdt
  }

  /** The time covered by the first k subcycles. */
  function SubcycleTotal(k: nat, maxVdt: real, dt: real): real
  {
    if k == 0 then 0.0 else SubcycleTotal(k - 1, maxVdt, dt) + SubcycleDt(k - 1, maxVdt, dt)
  }

  /** While k full steps fit in dt, each of them has length maxVdt. */
  lemma {:induction false} FullSteps(k: nat, maxVdt: real, dt: real)
    requires maxVdt > 0.0 && k as real * maxVdt <= dt
    ensures SubcycleTotal(k, maxVdt, dt) == k as real * maxVdt
    ensures forall step :: 0 <= step < k ==> SubcycleDt(step, maxVdt, dt) == maxVdt
  {
    if k > 0 {
      ScaleAtMost((k - 1) as real, k as real, maxVdt);
      FullSteps(k - 1, maxVdt, dt);
    }
  }

  /** Every subcycle but the last has length maxVdt, and the lengths of
    * all of them add up to dt. */
  lemma SubcyclesSumToDt(dt: real, maxVdt: real)
    requires maxVdt > 0.0
    ensures var n := Subcycles(dt, maxVdt);
      SubcycleTotal(n, maxVdt, dt) == dt &&
      forall step :: 0 <= step < n - 1 ==> SubcycleDt(step, maxVdt, dt) == maxVdt
  {
    var n := Subcycles(dt, maxVdt);
    if dt > 0.0 {
      SubcyclesCover(dt, maxVdt);
      FullSteps(n - 1, maxVdt, dt);
    } else {
      var c := Ceil(dt / maxVdt);
      assert dt / maxVdt <= 0.0;
      assert n == 1;
    }
  }

  /** For dt > 0 the last subcycle is positive and at most maxVdt long. */
  lemma LastSubcycle(dt: real, maxVdt: real)
    requires maxVdt > 0.0 && dt > 0.0
    ensures var n := Subcycles(dt, maxVdt);
      0.0 < SubcycleDt(n - 1, maxVdt, dt) <= maxVdt
  {
    SubcyclesCover(dt, maxVdt);
  }

  // ---------------------------------------------------------------------
  // Order-preserving cell lists

  /** The cells of s that pass keep, in the order of s. */
  function Filtered(s: seq<CellID>, keep: CellID -> bool): (r: seq<CellID>)
    ensures forall k :: 0 <= k < |r| ==> keep(r[k])
  {
    if |s| == 0 then []
    else Filtered(s[..|s| - 1], keep) + (if keep(s[|s| - 1]) then [s[|s| - 1]] else [])
  }

  /** Exactly the cells of s that pass keep are kept. */
  lemma {:induction false} FilteredMembers(s: seq<CellID>, keep: CellID -> bool)
    ensures forall x :: x in Filtered(s, keep) <==> x in s && keep(x)
  {
    if |s| > 0 {
      FilteredMembers(s[..|s| - 1], keep);
      assert s == s[..|s| - 1] + [s[|s| - 1]];
    }
  }

  /** The kept cells appear in s at strictly increasing positions. */
  lemma {:induction false} FilteredInOrder(s: seq<CellID>, keep: CellID -> bool) returns (pos: seq<nat>)
    ensures |pos| == |Filtered(s, keep)|
    ensures forall k :: 0 <= k < |pos| ==> pos[k] < |s| && Filtered(s, keep)[k] == s[pos[k]]
    ensures forall k, l :: 0 <= k < l < |pos| ==> pos[k] < pos[l]
  {
    if |s| == 0 {
      pos := [];
    } else {
      var init := s[..|s| - 1];
      var last := s[|s| - 1];
      var p := FilteredInOrder(init, keep);
      var r0 := Filtered(init, keep);
      assert forall k :: 0 <= k < |p| ==> p[k] < |init| && r0[k] == s[p[k]];
      if keep(last) {
        pos := p + [|s| - 1];
        assert Filtered(s, keep) == r0 + [last];
      } else {
        pos := p;
        assert Filtered(s, keep) == r0;
      }
    }
  }

  /** A list of distinct cells stays distinct. */
  lemma FilteredDistinct(s: seq<CellID>, keep: CellID -> bool)
    requires Distinct(s)
    ensures Distinct(Filtered(s, keep))
  {
    var pos := FilteredInOrder(s, keep);
  }

  lemma {:induction false} FilteredAppend(a: seq<CellID>, b: seq<CellID>, keep: CellID -> bool)
    ensures Filtered(a + b, keep) == Filtered(a, keep) + Filtered(b, keep)
    decreases |b|
  {
    if |b| > 0 {
      var b0 := b[..|b| - 1];
      assert (a + b)[..|a + b| - 1] == a + b0;
      FilteredAppend(a, b0, keep);
    } else {
      assert a + b == a;
    }
  }

  /** Filtering again with a stricter test is filtering once with it. */
  lemma {:induction false} FilteredNarrowed(s: seq<CellID>, wide: CellID -> bool, narrow: CellID -> bool)
    requires forall x :: x in s && narrow(x) ==> wide(x)
    ensures Filtered(Filtered(s, wide), narrow) == Filtered(s, narrow)
  {
    if |s| > 0 {
      var init := s[..|s| - 1];
      var last := s[|s| - 1];
      FilteredNarrowed(init, wide, narrow);
      var tail := if wide(last) then [last] else [];
      FilteredAppend(Filtered(init, wide), tail, narrow);
      assert Filtered([last], narrow) == Filtered([], narrow) + (if narrow(last) then [last] else []);
    }
  }

  /** The loop that pushes back the cells passing a test. */
  method KeepWhere(s: seq<CellID>, keep: CellID -> bool) returns (r: seq<CellID>)
    ensures r == Filtered(s, keep)
  {
    r := [];
    for c := 0 to |s|
      invariant r == Filtered(s[..c], keep)
    {
      if keep(s[c]) {
        r := r + [s[c]];
      }
      assert s[..c + 1][..c] == s[..c];
    }
    assert s[..|s|] == s;
  }

  /** get_number_of_all_velocity_blocks: the blocks of all populations. */
  function TotalBlocks(blocks: seq<nat>): nat
  {
    if |blocks| == 0 then 0 else TotalBlocks(blocks[..|blocks| - 1]) + blocks[|blocks| - 1]
  }

  /** A cell holds no blocks at all iff no population has any. */
  lemma {:induction false} TotalBlocksZero(blocks: seq<nat>)
    ensures TotalBlocks(blocks) == 0 <==> forall p :: 0 <= p < |blocks| ==> blocks[p] == 0
  {
    if |blocks| > 0 {
      var init := blocks[..|blocks| - 1];
      TotalBlocksZero(init);
      assert forall p :: 0 <= p < |init| ==> init[p] == blocks[p];
    }
  }

  /** The translation target test: the cell is an ordinary simulation cell. */
  function TargetTest(m: map<CellID, SpatialCell>): CellID -> bool
  {
    id => id in m && m[id].sysBoundaryFlag == NOT_SYSBOUNDARY
  }

  /** The translation test do_translate_cell, given as a parameter. */
  function TranslateTest(m: map<CellID, SpatialCell>, doTranslate: SpatialCell -> bool): CellID -> bool
  {
    id => id in m && doTranslate(m[id])
  }

  /** The acceleration test: an ordinary cell holding some velocity block. */
  function AccelerationTest(m: map<CellID, SpatialCell>): CellID -> bool
  {
    id => id in m && m[id].sysBoundaryFlag == NOT_SYSBOUNDARY && TotalBlocks(m[id].blocks) != 0
  }

  /** A cell's subcycle count. */
  function CellSubcycles(c: SpatialCell, dt: real): int
    requires c.parameters[MAXVDT] != 0.0
  {
    Subcycles(dt, c.parameters[MAXVDT])
  }

  /** The pruning test of subcycle step: the cell still has a step to take. */
  function SubcycledTest(m: map<CellID, SpatialCell>, dt: real, step: nat): CellID -> bool
  {
    id => id in m && m[id].parameters[MAXVDT] != 0.0 && step < CellSubcycles(m[id], dt)
  }

  /** A cell pruned at one step stays pruned at every later step. */
  lemma PruningNarrows(s: seq<CellID>, m: map<CellID, SpatialCell>, dt: real, step: nat)
    ensures Filtered(Filtered(s, SubcycledTest(m, dt, step)), SubcycledTest(m, dt, step + 1))
         == Filtered(s, SubcycledTest(m, dt, step + 1))
  {
    FilteredNarrowed(s, SubcycledTest(m, dt, step), SubcycledTest(m, dt, step + 1));
  }

  /** The cells of s that need MAXVDT to compute their subcycles have it. */
  predicate LimitsKnown(m: map<CellID, SpatialCell>, s: seq<CellID>)
  {
    forall q :: 0 <= q < |s| ==> s[q] in m && m[s[q]].parameters[MAXVDT] != 0.0
  }

  /** A cell with its subcycle count recorded in ACCSUBCYCLES. The running
    * maximum applies it only to cells whose MAXVDT is nonzero; a cell
    * without one is returned as it is. */
  function Recorded(c: SpatialCell, dt: real): SpatialCell
  {
    if c.parameters[MAXVDT] != 0.0
    then c.(parameters := c.parameters[ACCSUBCYCLES := CellSubcycles(c, dt) as real])
    else c
  }

  /** The two lists of local cells the translation builds, in grid order. */
  method ComputeCellLists(grid: SpatialGrid, doTranslate: SpatialCell -> bool)
    returns (propagated: seq<CellID>, targets: seq<CellID>)
    ensures propagated == Filtered(grid.local, TranslateTest(grid.cells, doTranslate))
    ensures targets == Filtered(grid.local, TargetTest(grid.cells))
  {
    propagated := KeepWhere(grid.local, TranslateTest(grid.cells, doTranslate));
    targets := KeepWhere(grid.local, TargetTest(grid.cells));
  }

  /** maxSub is the largest subcycle count of the first q cells of s, or
    * 0 when q is 0. */
  ghost predicate MaxOfFirst(m: map<CellID, SpatialCell>, s: seq<CellID>, dt: real, q: nat, maxSub: int)
    requires q <= |s| && LimitsKnown(m, s)
  {
    (forall p :: 0 <= p < q ==> CellSubcycles(m[s[p]], dt) <= maxSub) &&
    (q == 0 ==> maxSub == 0) &&
    (q > 0 ==> exists p :: 0 <= p < q && maxSub == CellSubcycles(m[s[p]], dt))
  }

  /** One pass of the running maximum: record the cell's count and raise
    * the maximum to it. */
  method RecordStep(grid: SpatialGrid, propagated: seq<CellID>, dt: real, ghost m0: map<CellID, SpatialCell>,
                    q: nat, maxSub: int) returns (next: int)
    requires Distinct(propagated) && q < |propagated| && LimitsKnown(m0, propagated)
    requires DoneUpTo(m0, grid.cells, propagated, c => Recorded(c, dt), q)
    requires MaxOfFirst(m0, propagated, dt, q, maxSub)
    modifies grid
    ensures DoneUpTo(m0, grid.cells, propagated, c => Recorded(c, dt), q + 1)
    ensures MaxOfFirst(m0, propagated, dt, q + 1, next)
  {
    var id := propagated[q];
    var subcycles := CellSubcycles(grid.cells[id], dt);
    LocalStep(m0, grid.cells, propagated, c => Recorded(c, dt), q,
              Recorded(grid.cells[id], dt));
    grid.cells := grid.cells[id := Recorded(grid.cells[id], dt)];
    next := if maxSub < subcycles then subcycles else maxSub;
    assert subcycles == CellSubcycles(m0[propagated[q]], dt);
    if q > 0 && maxSub >= subcycles {
      ghost var p :| 0 <= p < q && maxSub == CellSubcycles(m0[propagated[p]], dt);
      assert 0 <= p < q + 1 && next == CellSubcycles(m0[propagated[p]], dt);
    }
  }

  /** The running maximum of the subcycle counts of the accelerated cells,
    * which also records each cell's count; 0 when there is no such cell. */
  method MaxSubcycles(grid: SpatialGrid, propagated: seq<CellID>, dt: real) returns (maxSub: int)
    requires Distinct(propagated) && LimitsKnown(grid.cells, propagated)
    modifies grid
    ensures EachLocal(old(grid.cells), grid.cells, propagated,
                      c => Recorded(c, dt))
    ensures forall q :: 0 <= q < |propagated| ==> CellSubcycles(old(grid.cells)[propagated[q]], dt) <= maxSub
    ensures |propagated| == 0 ==> maxSub == 0
    ensures |propagated| > 0 ==> exists q :: 0 <= q < |propagated| && maxSub == CellSubcycles(old(grid.cells)[propagated[q]], dt)
  {
    ghost var m0 := grid.cells;
    maxSub := 0;
    for q := 0 to |propagated|
      invariant DoneUpTo(m0, grid.cells, propagated, c => Recorded(c, dt), q)
      invariant MaxOfFirst(m0, propagated, dt, q, maxSub)
    {
      maxSub := RecordStep(grid, propagated, dt, m0, q, maxSub);
    }
  }

  /** The kernel calls of one subcycle step: each remaining cell with the
    * length of its step. */
  function StepCalls(m: map<CellID, SpatialCell>, cells: seq<CellID>, step: nat, dt: real): seq<(CellID, real)>
    requires LimitsKnown(m, cells)
  {
    seq(|cells|, c requires 0 <= c < |cells| => (cells[c], SubcycleDt(step, m[cells[c]].parameters[MAXVDT], dt)))
  }

  /** One subcycle step: the length each remaining cell is accelerated
    * by, and whether blocks are adjusted after it (all steps but the
    * last of the global count). */
  method AccelerationStep(grid: SpatialGrid, cells: seq<CellID>, step: nat, dt: real, globalMax: int)
    returns (calls: seq<(CellID, real)>, adjust: bool)
    requires LimitsKnown(grid.cells, cells)
    ensures calls == StepCalls(grid.cells, cells, step, dt)
    ensures adjust <==> step < globalMax - 1
  {
    calls := [];
    for c := 0 to |cells|
      invariant |calls| == c
      invariant forall j :: 0 <= j < c ==>
        calls[j] == (cells[j], SubcycleDt(step, grid.cells[cells[j]].parameters[MAXVDT], dt))
    {
      var maxVdt := grid.cells[cells[c]].parameters[MAXVDT];
      var subcycleDt: real;
      if (step + 1) as real * maxVdt > dt {
        subcycleDt := dt - step as real * maxVdt;
      } else {
        subcycleDt := maxVdt;
      }
      assert subcycleDt == SubcycleDt(step, maxVdt, dt);
      calls := calls + [(cells[c], subcycleDt)];
    }
    adjust := step < globalMax - 1;
  }

  /** calculateAcceleration: the accelerated cells, the global subcycle
    * count (the largest over all processes, the others' given as
    * othersMax), per step the cells accelerated with their lengths, and
    * the cells as the moment kernels find them: counts recorded and the
    * accelerated moments cleared. */
  method CalculateAcceleration(grid: SpatialGrid, dt: real, othersMax: int)
    returns (propagated: seq<CellID>, globalMax: int, schedule: seq<seq<(CellID, real)>>)
    requires grid.Valid() && othersMax >= 0
    requires LimitsKnown(grid.cells, Filtered(grid.local, AccelerationTest(grid.cells)))
    modifies grid
    ensures propagated == Filtered(grid.local, AccelerationTest(old(grid.cells)))
    ensures EachLocal(old(grid.cells), grid.cells, grid.local, c => AfterAcceleration(c, dt))
    ensures globalMax >= othersMax
    ensures forall q :: 0 <= q < |propagated| ==> CellSubcycles(old(grid.cells)[propagated[q]], dt) <= globalMax
    ensures globalMax == othersMax ||
      exists q :: 0 <= q < |propagated| && CellSubcycles(old(grid.cells)[propagated[q]], dt) == globalMax
    ensures |schedule| == globalMax
    ensures forall k :: 0 <= k < globalMax ==>
      schedule[k] == StepCalls(old(grid.cells), Filtered(propagated, SubcycledTest(old(grid.cells), dt, k)), k, dt)
  {
    propagated := KeepWhere(grid.local, AccelerationTest(grid.cells));
    FilteredDistinct(grid.local, AccelerationTest(grid.cells));
    ghost var m0 := grid.cells;
    var maxSub := MaxSubcycles(grid, propagated, dt);
    ghost var m1 := grid.cells;
    RecordedKeepsLimits(m0, m1, propagated, dt);
    globalMax := if maxSub < othersMax then othersMax else maxSub;
    schedule := Subcycle(grid, propagated, dt, globalMax);
    forall k | 0 <= k < globalMax
      ensures schedule[k] == StepCalls(m0, Filtered(propagated, SubcycledTest(m0, dt, k)), k, dt)
    {
      SameLimitsSameSteps(m0, m1, propagated, dt, k);
    }
    ClearAcceleratedMoments(grid);
    AccelerationComposed(m0, m1, grid.cells, grid.local, propagated, dt);
  }

  /** The clear before the moments are recomputed after acceleration:
    * every local cell's RHO_V..P_33_V become 0. */
  method ClearAcceleratedMoments(grid: SpatialGrid)
    requires grid.Valid()
    modifies grid
    ensures EachLocal(old(grid.cells), grid.cells, grid.local, ClearedV)
  {
    ghost var m0 := grid.cells;
    for q := 0 to |grid.local|
      invariant DoneUpTo(m0, grid.cells, grid.local, ClearedV, q)
    {
      var id := grid.local[q];
      var c := grid.cells[id];
      var p := c.parameters;
      p := p[MomentSlot(RHO_V, 0) := 0.0];
      p := p[MomentSlot(RHO_V, 1) := 0.0];
      p := p[MomentSlot(RHO_V, 2) := 0.0];
      p := p[MomentSlot(RHO_V, 3) := 0.0];
      p := p[MomentSlot(RHO_V, 4) := 0.0];
      p := p[MomentSlot(RHO_V, 5) := 0.0];
      p := p[MomentSlot(RHO_V, 6) := 0.0];
      assert p == ClearedMoments(c.parameters, RHO_V);
      LocalStep(m0, grid.cells, grid.local, ClearedV, q, c.(parameters := p));
      grid.cells := grid.cells[id := c.(parameters := p)];
    }
  }

  /** Cell maps that agree on every MAXVDT prune and time the subcycle
    * steps alike. */
  lemma SameLimitsSameSteps(m0: map<CellID, SpatialCell>, m: map<CellID, SpatialCell>,
                            s: seq<CellID>, dt: real, k: nat)
    requires m.Keys == m0.Keys
    requires forall id :: id in m0 ==> m[id].parameters[MAXVDT] == m0[id].parameters[MAXVDT]
    ensures Filtered(s, SubcycledTest(m, dt, k)) == Filtered(s, SubcycledTest(m0, dt, k))
    ensures StepCalls(m, Filtered(s, SubcycledTest(m0, dt, k)), k, dt)
         == StepCalls(m0, Filtered(s, SubcycledTest(m0, dt, k)), k, dt)
  {
    FilteredAgree(s, SubcycledTest(m, dt, k), SubcycledTest(m0, dt, k));
  }

  /** Tests that agree on the cells of s filter s alike. */
  lemma {:induction false} FilteredAgree(s: seq<CellID>, a: CellID -> bool, b: CellID -> bool)
    requires forall q :: 0 <= q < |s| ==> a(s[q]) == b(s[q])
    ensures Filtered(s, a) == Filtered(s, b)
  {
    if |s| > 0 {
      FilteredAgree(s[..|s| - 1], a, b);
    }
  }

  /** The ACCSUBCYCLES writes on the accelerated cells followed by the
    * clear of every local cell give each local cell AfterAcceleration. */
  lemma AccelerationComposed(m0: map<CellID, SpatialCell>, m1: map<CellID, SpatialCell>,
                             m2: map<CellID, SpatialCell>, local: seq<CellID>,
                             propagated: seq<CellID>, dt: real)
    requires forall q :: 0 <= q < |local| ==> local[q] in m0
    requires propagated == Filtered(local, AccelerationTest(m0))
    requires EachLocal(m0, m1, propagated, c => Recorded(c, dt))
    requires EachLocal(m1, m2, local, ClearedV)
    ensures EachLocal(m0, m2, local, c => AfterAcceleration(c, dt))
  {
    FilteredMembers(local, AccelerationTest(m0));
    forall q | 0 <= q < |local|
      ensures m2[local[q]] == AfterAcceleration(m0[local[q]], dt)
    {
      var id := local[q];
      if id in propagated {
        var p :| 0 <= p < |propagated| && propagated[p] == id;
        assert m1[propagated[p]] == Recorded(m0[propagated[p]], dt);
      }
    }
  }

  /** The subcycle steps of the acceleration: at each step the cells
    * still subcycled, pruned from the previous step's list. */
  method Subcycle(grid: SpatialGrid, propagated: seq<CellID>, dt: real, globalMax: int)
    returns (schedule: seq<seq<(CellID, real)>>)
    requires LimitsKnown(grid.cells, propagated) && globalMax >= 0
    ensures |schedule| == globalMax
    ensures forall k :: 0 <= k < globalMax ==>
      schedule[k] == StepCalls(grid.cells, Filtered(propagated, SubcycledTest(grid.cells, dt, k)), k, dt)
  {
    schedule := [];
    var cells := propagated;
    var step: nat := 0;
    while step < globalMax
      invariant step <= globalMax
      invariant cells == if step == 0 then propagated else Filtered(propagated, SubcycledTest(grid.cells, dt, step - 1))
      invariant |schedule| == step
      invariant forall k :: 0 <= k < step ==>
        schedule[k] == StepCalls(grid.cells, Filtered(propagated, SubcycledTest(grid.cells, dt, k)), k, dt)
    {
      cells := Prune(grid, propagated, cells, step, dt);
      var calls, adjust := AccelerationStep(grid, cells, step, dt, globalMax);
      schedule := schedule + [calls];
      step := step + 1;
    }
  }

  /** The ACCSUBCYCLES writes leave every cell's MAXVDT, and so its
    * subcycle count, as it was. */
  lemma RecordedKeepsLimits(m0: map<CellID, SpatialCell>, m: map<CellID, SpatialCell>,
                            s: seq<CellID>, dt: real)
    requires forall q :: 0 <= q < |s| ==> s[q] in m0
    requires EachLocal(m0, m, s, c => Recorded(c, dt))
    ensures forall id :: id in m0 ==> id in m && m[id].parameters[MAXVDT] == m0[id].parameters[MAXVDT]
  {
    forall id | id in m0
      ensures m[id].parameters[MAXVDT] == m0[id].parameters[MAXVDT]
    {
      if id in s {
        var q :| 0 <= q < |s| && s[q] == id;
        assert m[s[q]] == Recorded(m0[s[q]], dt);
      }
    }
  }

  /** The pruning of one subcycle step: the cells still subcycled. */
  method Prune(grid: SpatialGrid, propagated: seq<CellID>, cells: seq<CellID>, step: nat, dt: real)
    returns (temp: seq<CellID>)
    requires cells == if step == 0 then propagated else Filtered(propagated, SubcycledTest(grid.cells, dt, step - 1))
    ensures temp == Filtered(propagated, SubcycledTest(grid.cells, dt, step))
  {
    ghost var m := grid.cells;
    var test := SubcycledTest(grid.cells, dt, step);
    temp := KeepWhere(cells, test);
    if step > 0 {
      PruningNarrows(propagated, m, dt, step - 1);
      assert step - 1 + 1 == step;
    }
  }

  /** A cell is accelerated at step k iff it is an accelerated cell with
    * more than k subcycles; so it takes exactly its own number of steps,
    * of lengths SubcycleDt, which add up to dt (SubcyclesSumToDt). */
  lemma ScheduledIff(propagated: seq<CellID>, m: map<CellID, SpatialCell>, dt: real, k: nat, id: CellID)
    requires LimitsKnown(m, propagated)
    ensures id in Filtered(propagated, SubcycledTest(m, dt, k)) <==>
      id in propagated && k < CellSubcycles(m[id], dt)
  {
    FilteredMembers(propagated, SubcycledTest(m, dt, k));
  }

  // ---------------------------------------------------------------------
  // Velocity moments

  /** calculateCellVelocityMoments returns at once for cells that must not
    * be computed, and for boundary cells beyond the first layer, unless
    * told not to skip. */
  predicate SkipsMoments(c: SpatialCell, doNotSkip: bool)
  {
    !doNotSkip &&
    (c.sysBoundaryFlag == DO_NOT_COMPUTE ||
     (c.sysBoundaryLayer != 1 && c.sysBoundaryFlag != NOT_SYSBOUNDARY))
  }

  /** Which cells have their moments computed. */
  lemma SkipRule(c: SpatialCell, doNotSkip: bool)
    ensures doNotSkip ==> !SkipsMoments(c, doNotSkip)
    ensures c.sysBoundaryFlag == NOT_SYSBOUNDARY ==> !SkipsMoments(c, doNotSkip)
    ensures c.sysBoundaryFlag == DO_NOT_COMPUTE ==> (SkipsMoments(c, doNotSkip) <==> !doNotSkip)
    ensures c.sysBoundaryFlag != DO_NOT_COMPUTE && c.sysBoundaryLayer == 1 ==> !SkipsMoments(c, doNotSkip)
  {
  }

  /** The seven moment slots of base cleared. */
  function ClearedMoments(p: Params, base: nat): (r: Params)
    requires base == RHO || base == RHO_R || base == RHO_V
  {
    p[MomentSlot(base, 0) := 0.0][MomentSlot(base, 1) := 0.0][MomentSlot(base, 2) := 0.0]
     [MomentSlot(base, 3) := 0.0][MomentSlot(base, 4) := 0.0][MomentSlot(base, 5) := 0.0]
     [MomentSlot(base, 6) := 0.0]
  }

  /** Clearing zeroes exactly the seven moment slots. */
  lemma ClearedMomentsSlots(p: Params, base: nat, s: nat)
    requires base == RHO || base == RHO_R || base == RHO_V
    requires s < SIZE_CELLPARAMS
    ensures ClearedMoments(p, base)[s] ==
      if exists m :: 0 <= m < 7 && s == MomentSlot(base, m) then 0.0 else p[s]
  {
    if exists m :: 0 <= m < 7 && s == MomentSlot(base, m) {
      var m :| 0 <= m < 7 && s == MomentSlot(base, m);
      assert m == 0 || m == 1 || m == 2 || m == 3 || m == 4 || m == 5 || m == 6;
    }
  }

  /** A cell with its accelerated moments RHO_V..P_33_V cleared. */
  function ClearedV(c: SpatialCell): SpatialCell
  {
    c.(parameters := ClearedMoments(c.parameters, RHO_V))
  }

  /** A local cell as calculateAcceleration leaves it for the moment
    * kernels: an accelerated cell has its subcycle count recorded, and
    * every cell has its accelerated moments cleared. */
  function AfterAcceleration(c: SpatialCell, dt: real): SpatialCell
  {
    ClearedV(if c.sysBoundaryFlag == NOT_SYSBOUNDARY && TotalBlocks(c.blocks) != 0 then Recorded(c, dt) else c)
  }

  /** After acceleration the _V moments are 0, ACCSUBCYCLES holds the count
    * of an accelerated cell with a known MAXVDT, and nothing else of the
    * cell changes. */
  lemma AfterAccelerationSlots(c: SpatialCell, dt: real, s: nat)
    requires s < SIZE_CELLPARAMS
    ensures AfterAcceleration(c, dt).sysBoundaryFlag == c.sysBoundaryFlag
    ensures AfterAcceleration(c, dt).blocks == c.blocks
    ensures AfterAcceleration(c, dt).parameters[s] ==
      if RHO_V <= s < RHO_V + 7 then 0.0
      else if s == ACCSUBCYCLES && c.sysBoundaryFlag == NOT_SYSBOUNDARY && TotalBlocks(c.blocks) != 0
              && c.parameters[MAXVDT] != 0.0
      then CellSubcycles(c, dt) as real
      else c.parameters[s]
  {
    var r := if c.sysBoundaryFlag == NOT_SYSBOUNDARY && TotalBlocks(c.blocks) != 0 then Recorded(c, dt) else c;
    ClearedMomentsSlots(r.parameters, RHO_V, s);
    if RHO_V <= s < RHO_V + 7 {
      assert s == MomentSlot(RHO_V, s - RHO_V);
    }
  }

  /** calculateCellVelocityMoments up to the accumulation by the moment
    * kernels: the cell is left alone or its seven moments are cleared. */
  method CalculateCellVelocityMoments(grid: SpatialGrid, id: CellID, doNotSkip: bool)
    requires id in grid.cells
    modifies grid
    ensures grid.cells == old(grid.cells)[id :=
      var c := old(grid.cells)[id];
      if SkipsMoments(c, doNotSkip) then c else c.(parameters := ClearedMoments(c.parameters, RHO))]
  {
    var c := grid.cells[id];
    if !doNotSkip &&
       (c.sysBoundaryFlag == DO_NOT_COMPUTE ||
        (c.sysBoundaryLayer != 1 && c.sysBoundaryFlag != NOT_SYSBOUNDARY)) {
      assert grid.cells[id := c] == grid.cells;
      return;
    }
    var p := c.parameters;
    p := p[RHO := 0.0];
    p := p[RHOVX := 0.0];
    p := p[RHOVY := 0.0];
    p := p[RHOVZ := 0.0];
    p := p[P_11 := 0.0];
    p := p[P_22 := 0.0];
    p := p[P_33 := 0.0];
    grid.cells := grid.cells[id := c.(parameters := p)];
  }

  /** The seven target slots, written in turn with the mean of the
    * translated (_R) and accelerated (_V) moment; each write reads the
    * array as the earlier writes left it. */
  function InterpolatedUpTo(p: Params, targets: seq<nat>, k: nat): Params
    requires |targets| == 7 && k <= 7
    requires forall m :: 0 <= m < 7 ==> targets[m] < SIZE_CELLPARAMS
  {
    if k == 0 then p
    else
      var q := InterpolatedUpTo(p, targets, k - 1);
      q[targets[k - 1] := 0.5 * (q[MomentSlot(RHO_R, k - 1)] + q[MomentSlot(RHO_V, k - 1)])]
  }

  /** The targets are distinct slots outside the _R and _V moments. */
  predicate SeparateTargets(targets: seq<nat>)
    requires |targets| == 7
  {
    (forall m, n :: 0 <= m < n < 7 ==> targets[m] != targets[n]) &&
    (forall m :: 0 <= m < 7 ==> targets[m] < RHO_R || RHO_V + 7 <= targets[m] < SIZE_CELLPARAMS)
  }

  /** With separate targets each target holds 0.5 (R + V) of the moment
    * it stands for, and no other slot changes. */
  lemma {:induction false} InterpolatedMeans(p: Params, targets: seq<nat>, k: nat)
    requires |targets| == 7 && k <= 7 && SeparateTargets(targets)
    ensures forall m :: 0 <= m < k ==>
      InterpolatedUpTo(p, targets, k)[targets[m]] == 0.5 * (p[MomentSlot(RHO_R, m)] + p[MomentSlot(RHO_V, m)])
    ensures forall s :: 0 <= s < SIZE_CELLPARAMS && (forall m :: 0 <= m < k ==> s != targets[m]) ==>
      InterpolatedUpTo(p, targets, k)[s] == p[s]
  {
    if k > 0 {
      InterpolatedMeans(p, targets, k - 1);
      var q := InterpolatedUpTo(p, targets, k - 1);
      assert q[MomentSlot(RHO_R, k - 1)] == p[MomentSlot(RHO_R, k - 1)];
      assert q[MomentSlot(RHO_V, k - 1)] == p[MomentSlot(RHO_V, k - 1)];
    }
  }

  /** calculateInterpolatedVelocityMoments on one cell. */
  function Interpolated(c: SpatialCell, targets: seq<nat>): SpatialCell
    requires |targets| == 7 && forall m :: 0 <= m < 7 ==> targets[m] < SIZE_CELLPARAMS
  {
    if c.sysBoundaryFlag == NOT_SYSBOUNDARY then c.(parameters := InterpolatedUpTo(c.parameters, targets, 7)) else c
  }

  /** The seven writes to one ordinary cell. */
  method InterpolateCell(p: Params, targets: seq<nat>) returns (r: Params)
    requires |targets| == 7 && forall m :: 0 <= m < 7 ==> targets[m] < SIZE_CELLPARAMS
    ensures r == InterpolatedUpTo(p, targets, 7)
  {
    r := p;
    for m := 0 to 7
      invariant r == InterpolatedUpTo(p, targets, m)
    {
      r := r[targets[m] := 0.5 * (r[MomentSlot(RHO_R, m)] + r[MomentSlot(RHO_V, m)])];
    }
  }

  /** calculateInterpolatedVelocityMoments: every ordinary local cell gets
    * the mean moments in the target slots; boundary cells are untouched. */
  method CalculateInterpolatedVelocityMoments(grid: SpatialGrid, targets: seq<nat>)
    requires grid.Valid()
    requires |targets| == 7 && forall m :: 0 <= m < 7 ==> targets[m] < SIZE_CELLPARAMS
    modifies grid
    ensures grid.Valid()
    ensures EachLocal(old(grid.cells), grid.cells, grid.local, c => Interpolated(c, targets))
  {
    ghost var m0 := grid.cells;
    for q := 0 to |grid.local|
      invariant DoneUpTo(m0, grid.cells, grid.local, c => Interpolated(c, targets), q)
    {
      var id := grid.local[q];
      var c := grid.cells[id];
      if c.sysBoundaryFlag == NOT_SYSBOUNDARY {
        var p := InterpolateCell(c.parameters, targets);
        LocalStep(m0, grid.cells, grid.local, c => Interpolated(c, targets), q, c.(parameters := p));
        grid.cells := grid.cells[id := c.(parameters := p)];
      } else {
        LocalKeep(m0, grid.cells, grid.local, c => Interpolated(c, targets), q);
      }
    }
  }

  // ---------------------------------------------------------------------
  // The spatial time-step limit

  /** numeric_limits<Real>::max() for double precision. */
  const REAL_MAX: real := 1.7976931348623157e308

  /** One sampled velocity of a block, (Vx, Vy, Vz). */
  type Velocity = (real, real, real)

  function Abs(x: real): real
  {
    if x < 0.0 then -x else x
  }

  /** One of the three updates: min with d/|v| when v is nonzero. */
  function Limited(r: real, d: real, v: real): real
  {
    if Abs(v) != 0.0 then (if d / Abs(v) < r then d / Abs(v) else r) else r
  }

  /** The limit after the first k sampled velocities. */
  function MaxRDt(dx: real, dy: real, dz: real, samples: seq<Velocity>, k: nat): real
    requires k <= |samples|
  {
    if k == 0 then REAL_MAX
    else
      var v := samples[k - 1];
      Limited(Limited(Limited(MaxRDt(dx, dy, dz, samples, k - 1), dx, v.0), dy, v.1), dz, v.2)
  }

  /** The limit never grows from one sample to the next. */
  lemma MaxRDtDecreases(dx: real, dy: real, dz: real, samples: seq<Velocity>, k: nat)
    requires k < |samples|
    ensures MaxRDt(dx, dy, dz, samples, k + 1) <= MaxRDt(dx, dy, dz, samples, k)
  {
  }

  /** The limit is at most REAL_MAX and at most d/|v| for every sampled
    * nonzero velocity component. */
  lemma {:induction false} MaxRDtBound(dx: real, dy: real, dz: real, samples: seq<Velocity>, k: nat)
    requires k <= |samples|
    ensures MaxRDt(dx, dy, dz, samples, k) <= REAL_MAX
    ensures forall j :: 0 <= j < k ==>
      (Abs(samples[j].0) != 0.0 ==> MaxRDt(dx, dy, dz, samples, k) <= dx / Abs(samples[j].0)) &&
      (Abs(samples[j].1) != 0.0 ==> MaxRDt(dx, dy, dz, samples, k) <= dy / Abs(samples[j].1)) &&
      (Abs(samples[j].2) != 0.0 ==> MaxRDt(dx, dy, dz, samples, k) <= dz / Abs(samples[j].2))
  {
    if k > 0 {
      MaxRDtBound(dx, dy, dz, samples, k - 1);
      MaxRDtDecreases(dx, dy, dz, samples, k - 1);
    }
  }

  /** The limit is REAL_MAX or one of the ratios d/|v|. */
  lemma {:induction false} MaxRDtAttained(dx: real, dy: real, dz: real, samples: seq<Velocity>, k: nat)
    requires k <= |samples|
    ensures var r := MaxRDt(dx, dy, dz, samples, k);
      r == REAL_MAX ||
      (exists j :: 0 <= j < k &&
        ((Abs(samples[j].0) != 0.0 && r == dx / Abs(samples[j].0)) ||
         (Abs(samples[j].1) != 0.0 && r == dy / Abs(samples[j].1)) ||
         (Abs(samples[j].2) != 0.0 && r == dz / Abs(samples[j].2))))
  {
    if k > 0 {
      MaxRDtAttained(dx, dy, dz, samples, k - 1);
    }
  }

  /** A cell after the translation's per-cell bookkeeping: translated
    * moments cleared for the kernels to accumulate into, and MAXRDT the
    * limit over its sampled block velocities. */
  function TranslatedLimits(c: SpatialCell, samples: seq<Velocity>): SpatialCell
  {
    var p := ClearedMoments(c.parameters, RHO_R);
    c.(parameters := p[MAXRDT := MaxRDt(p[DX], p[DY], p[DZ], samples, |samples|)])
  }

  /** The per-cell loop of the translation: clear the _R moments, reset
    * MAXRDT and lower it over the sampled velocities, in order. */
  method CellLimits(p0: Params, samples: seq<Velocity>) returns (p: Params)
    ensures p == TranslatedLimits(SpatialCell(0, 0, p0, []), samples).parameters
  {
    var dx := p0[DX];
    var dy := p0[DY];
    var dz := p0[DZ];
    p := p0;
    p := p[RHO_R := 0.0];
    p := p[RHO_R + 1 := 0.0];
    p := p[RHO_R + 2 := 0.0];
    p := p[RHO_R + 3 := 0.0];
    p := p[RHO_R + 4 := 0.0];
    p := p[RHO_R + 5 := 0.0];
    p := p[RHO_R + 6 := 0.0];
    ghost var cleared := p;
    assert cleared == ClearedMoments(p0, RHO_R);
    p := p[MAXRDT := REAL_MAX];
    for k := 0 to |samples|
      invariant p == cleared[MAXRDT := MaxRDt(dx, dy, dz, samples, k)]
    {
      var v := samples[k];
      if Abs(v.0) != 0.0 {
        p := p[MAXRDT := if dx / Abs(v.0) < p[MAXRDT] then dx / Abs(v.0) else p[MAXRDT]];
      }
      if Abs(v.1) != 0.0 {
        p := p[MAXRDT := if dy / Abs(v.1) < p[MAXRDT] then dy / Abs(v.1) else p[MAXRDT]];
      }
      if Abs(v.2) != 0.0 {
        p := p[MAXRDT := if dz / Abs(v.2) < p[MAXRDT] then dz / Abs(v.2) else p[MAXRDT]];
      }
    }
  }

  /** The moment and time-step loop after translation, over all local
    * cells; sampled gives each cell's block velocities in loop order. */
  method ComputeTranslationLimits(grid: SpatialGrid, sampled: SpatialCell -> seq<Velocity>)
    requires grid.Valid()
    modifies grid
    ensures grid.Valid()
    ensures EachLocal(old(grid.cells), grid.cells, grid.local, c => TranslatedLimits(c, sampled(c)))
  {
    ghost var m0 := grid.cells;
    for q := 0 to |grid.local|
      invariant DoneUpTo(m0, grid.cells, grid.local, c => TranslatedLimits(c, sampled(c)), q)
    {
      var id := grid.local[q];
      var c := grid.cells[id];
      var p := CellLimits(c.parameters, sampled(c));
      LocalStep(m0, grid.cells, grid.local, c => TranslatedLimits(c, sampled(c)), q, c.(parameters := p));
      grid.cells := grid.cells[id := c.(parameters := p)];
    }
  }
}
