/** The neighbour lists of the field solver's three MPI transfer stencils.
  * A list holds neighbour type IDs; the stencil object they are handed to
  * (its addReceives/addSends) belongs to the mesh substrate. */
module TransferStencils {

  import opened NeighbourTopology

  /** The type IDs handed to a stencil for receiving and for sending. */
  datatype StencilLists = StencilLists(receives: seq<nat>, sends: seq<nat>)

  /** The `continue` test of a walk over the 3x3x3 cube: whether it skips
    * offset (i,j,k). The three walks of the source differ only in this test. */
  type SkipTest = (int, int, int) -> bool

  /** An offset of the 3x3x3 cube around a cell. */
  predicate Offset(i: int, j: int, k: int)
  {
    -1 <= i <= 1 && -1 <= j <= 1 && -1 <= k <= 1
  }

  /** The walk of calculateTransferStencil3 skips only the cell itself. */
  predicate CentreOnly(i: int, j: int, k: int)
  {
    i == 0 && j == 0 && k == 0
  }

  /** The offsets the receive walk of calculateTransferStencil1 skips: the cell
    * itself and eight neighbours. */
  predicate Stencil1ReceiveSkips(i: int, j: int, k: int)
  {
    (i == 0 && j == 0 && k == 0) ||
    (i == 0 && j == 1 && k == 1) || (i == -1 && j == 1 && k == 1) ||
    (i == -1 && j == -1 && k == -1) || (i == 1 && j == 0 && k == 1) ||
    (i == 1 && j == 1 && k == 0) || (i == 1 && j == 1 && k == 1) ||
    (i == 1 && j == -1 && k == 1) || (i == 1 && j == 1 && k == -1)
  }

  /** The offsets the send walk of calculateTransferStencil1 skips. */
  predicate Stencil1SendSkips(i: int, j: int, k: int)
  {
    (i == 0 && j == 0 && k == 0) ||
    (i == 0 && j == -1 && k == -1) || (i == 1 && j == -1 && k == -1) ||
    (i == 1 && j == 1 && k == 1) || (i == -1 && j == 0 && k == -1) ||
    (i == -1 && j == -1 && k == 0) || (i == -1 && j == -1 && k == -1) ||
    (i == -1 && j == 1 && k == -1) || (i == -1 && j == -1 && k == 1)
  }

  /** Type ID of the mirrored neighbour: offset (i,j,k) becomes (-i,-j,-k). */
  function Mirror(t: int): int
  {
    124 - t
  }

  /** Type ID of the neighbour at offset (i,j,k). */
  function OffsetTypeID(i: int, j: int, k: int): (t: nat)
    requires Offset(i, j, k)
    ensures t == NbrTypeID(2 + i, 2 + j, 2 + k)
    ensures 31 <= t <= 93
  {
    NbrTypeID(2 + i, 2 + j, 2 + k)
  }

  /** The list after visiting offsets -1..i-1 of row (j,k). */
  function RowUpTo(skip: SkipTest, i: int, j: int, k: int): seq<nat>
    requires -1 <= i <= 2 && Offset(0, j, k)
    decreases i + 1
  {
    if i == -1 then []
    else if skip(i - 1, j, k) then RowUpTo(skip, i - 1, j, k)
    else RowUpTo(skip, i - 1, j, k) + [OffsetTypeID(i - 1, j, k)]
  }

  /** The list after visiting rows -1..j-1 of layer k. */
  function LayerUpTo(skip: SkipTest, j: int, k: int): seq<nat>
    requires -1 <= j <= 2 && -1 <= k <= 1
    decreases j + 1
  {
    if j == -1 then [] else LayerUpTo(skip, j - 1, k) + RowUpTo(skip, CUBE_END, j - 1, k)
  }

  /** The list after visiting layers -1..k-1. */
  function CubeUpTo(skip: SkipTest, k: int): seq<nat>
    requires -1 <= k <= 2
    decreases k + 1
  {
    if k == -1 then [] else CubeUpTo(skip, k - 1) + LayerUpTo(skip, CUBE_END, k - 1)
  }

  /** One past the last offset of each loop of the walk. */
  const CUBE_END: int := 2

  /** The list a whole walk builds. */
  function WalkList(skip: SkipTest): seq<nat>
  {
    CubeUpTo(skip, CUBE_END)
  }

  /** The loop of calculateTransferStencil1 (both lists) and of
    * calculateTransferStencil3. */
  method WalkNeighbours(skip: SkipTest) returns (ids: seq<nat>)
    ensures ids == WalkList(skip)
  {
    ids := [];
    var k := -1;
    while k < 2
      invariant -1 <= k <= 2
      invariant ids == CubeUpTo(skip, k)
    {
      ids := WalkLayer(skip, k, ids);
      CubeStep(skip, k);
      k := k + 1;
    }
  }

  /** The middle loop of a walk: the rows j = -1..1 of layer k. */
  method WalkLayer(skip: SkipTest, k: int, ids: seq<nat>) returns (next: seq<nat>)
    requires Offset(0, 0, k)
    ensures next == ids + LayerUpTo(skip, CUBE_END, k)
  {
    next := ids;
    AppendNothing(ids);
    var j := -1;
    while j < 2
      invariant -1 <= j <= 2
      invariant next == ids + LayerUpTo(skip, j, k)
    {
      next := WalkRow(skip, j, k, next);
      LayerStep(skip, j, k);
      AppendAssociates(ids, LayerUpTo(skip, j, k), RowUpTo(skip, CUBE_END, j, k));
      j := j + 1;
    }
  }

  /** The innermost loop of a walk: append, for i = -1..1, the type ID of
    * offset (i,j,k) unless the walk skips it. */
  method WalkRow(skip: SkipTest, j: int, k: int, ids: seq<nat>) returns (next: seq<nat>)
    requires Offset(0, j, k)
    ensures next == ids + RowUpTo(skip, CUBE_END, j, k)
  {
    next := ids;
    AppendNothing(ids);
    var i := -1;
    while i < 2
      invariant -1 <= i <= 2
      invariant next == ids + RowUpTo(skip, i, j, k)
    {
      RowStep(skip, i, j, k);
      if !skip(i, j, k) {
        AppendAssociates(ids, RowUpTo(skip, i, j, k), [NbrTypeID(2 + i, 2 + j, 2 + k)]);
        next := next + [NbrTypeID(2 + i, 2 + j, 2 + k)];
      }
      i := i + 1;
    }
  }

  lemma RowStep(skip: SkipTest, i: int, j: int, k: int)
    requires Offset(i, j, k)
    ensures RowUpTo(skip, i + 1, j, k) ==
      if skip(i, j, k) then RowUpTo(skip, i, j, k)
      else RowUpTo(skip, i, j, k) + [NbrTypeID(2 + i, 2 + j, 2 + k)]
  {
  }

  lemma LayerStep(skip: SkipTest, j: int, k: int)
    requires Offset(0, j, k)
    ensures LayerUpTo(skip, j + 1, k) == LayerUpTo(skip, j, k) + RowUpTo(skip, CUBE_END, j, k)
  {
  }

  lemma CubeStep(skip: SkipTest, k: int)
    requires Offset(0, 0, k)
    ensures CubeUpTo(skip, k + 1) == CubeUpTo(skip, k) + LayerUpTo(skip, CUBE_END, k)
  {
  }

  lemma AppendNothing(a: seq<nat>)
    ensures a + [] == a
  {
  }

  lemma AppendAssociates(a: seq<nat>, b: seq<nat>, c: seq<nat>)
    ensures (a + b) + c == a + (b + c)
  {
  }

  /** The receive list of stencil 1. */
  function Stencil1Receives(): seq<nat>
  {
    WalkList(Stencil1ReceiveSkips)
  }

  /** The send list of stencil 1. */
  function Stencil1Sends(): seq<nat>
  {
    WalkList(Stencil1SendSkips)
  }

  /** The 26-neighbour list of stencil 3. */
  function AllNeighbourTypeIDs(): seq<nat>
  {
    WalkList(CentreOnly)
  }

  /** The list pair of calculateTransferStencil2: the +x, +y, +z, +x+y, +x+z,
    * +y+z neighbours are received and the mirrored ones are sent. */
  function Stencil2Lists(): StencilLists
  {
    StencilLists(
      [NbrTypeID(2 + 1, 2, 2), NbrTypeID(2, 2 + 1, 2), NbrTypeID(2, 2, 2 + 1),
       NbrTypeID(2 + 1, 2 + 1, 2), NbrTypeID(2 + 1, 2, 2 + 1), NbrTypeID(2, 2 + 1, 2 + 1)],
      [NbrTypeID(2 - 1, 2, 2), NbrTypeID(2, 2 - 1, 2), NbrTypeID(2, 2, 2 - 1),
       NbrTypeID(2 - 1, 2 - 1, 2), NbrTypeID(2 - 1, 2, 2 - 1), NbrTypeID(2, 2 - 1, 2 - 1)])
  }

  /** The list pair of calculateTransferStencil1. */
  method CalculateTransferStencil1Lists() returns (lists: StencilLists)
    ensures lists == StencilLists(Stencil1Receives(), Stencil1Sends())
  {
    var receives := WalkNeighbours(Stencil1ReceiveSkips);
    var sends := WalkNeighbours(Stencil1SendSkips);
    lists := StencilLists(receives, sends);
  }

  /** The list pair of calculateTransferStencil3: one list for both directions. */
  method CalculateTransferStencil3Lists() returns (lists: StencilLists)
    ensures lists == StencilLists(AllNeighbourTypeIDs(), AllNeighbourTypeIDs())
  {
    var ids := WalkNeighbours(CentreOnly);
    lists := StencilLists(ids, ids);
  }

  // ---------------------------------------------------------------------
  // Membership

  /** Whether a walk keeps offset (i,j,k) of the cube. */
  predicate Kept(skip: SkipTest, i: int, j: int, k: int)
  {
    Offset(i, j, k) && !skip(i, j, k)
  }

  /** Whether (a,b,c) is the offset, on the 5x5x5 cube, that type ID t names:
    * t is 25 (c+2) + 5 (b+2) + (a+2), each coordinate in -2..2. */
  ghost predicate NamedOffset(t: int, a: int, b: int, c: int)
  {
    -2 <= a <= 2 && -2 <= b <= 2 && -2 <= c <= 2 && t == 25 * (c + 2) + 5 * (b + 2) + (a + 2)
  }

  /** The offset from the cell that type ID t names. */
  ghost function TypeIDOffset(t: int): (o: (int, int, int))
    requires 0 <= t < 125
    ensures NamedOffset(t, o.0, o.1, o.2)
  {
    TypeIDDigits(t);
    var a, b, c :| NamedOffset(t, a, b, c);
    (a, b, c)
  }

  /** Every type ID names an offset: its base-5 digits, less 2. */
  lemma TypeIDDigits(t: int)
    requires 0 <= t < 125
    ensures exists a, b, c :: NamedOffset(t, a, b, c)
  {
    var p := TypeIDPosition(t);
    TypeIDEncodes(t);
    var a: int, b: int, c: int := p.0, p.1, p.2;
    assert NamedOffset(t, a - 2, b - 2, c - 2);
  }

  /** Whether t is the type ID of an offset of the 3x3x3 cube that a walk keeps. */
  ghost predicate Listed(skip: SkipTest, t: int)
  {
    0 <= t < 125 && Kept(skip, TypeIDOffset(t).0, TypeIDOffset(t).1, TypeIDOffset(t).2)
  }

  /** t is the type ID of offset (a,b,c) exactly when t names that offset. */
  lemma NamesOffset(a: int, b: int, c: int, t: int)
    requires Offset(a, b, c)
    ensures t == OffsetTypeID(a, b, c) <==> 0 <= t < 125 && TypeIDOffset(t) == (a, b, c)
  {
    if t == OffsetTypeID(a, b, c) {
      OffsetUnique(t, a, b, c);
    }
  }

  /** A type ID names only one offset. */
  lemma OffsetUnique(t: int, a: int, b: int, c: int)
    requires 0 <= t < 125 && NamedOffset(t, a, b, c)
    ensures TypeIDOffset(t) == (a, b, c)
  {
    var o := TypeIDOffset(t);
    assert o.2 == c;
    assert o.1 == b;
  }

  /** The offset of the mirrored type ID 124 - t is the negated offset of t. */
  lemma MirrorNegatesOffset(t: int)
    requires 0 <= t < 125
    ensures TypeIDOffset(Mirror(t)) == (-TypeIDOffset(t).0, -TypeIDOffset(t).1, -TypeIDOffset(t).2)
  {
    var o := TypeIDOffset(t);
    OffsetUnique(Mirror(t), -o.0, -o.1, -o.2);
  }

  /** A walk lists the type ID of an offset of the cube iff it does not skip it. */
  lemma ListedOffset(skip: SkipTest, a: int, b: int, c: int)
    requires Offset(a, b, c)
    ensures Listed(skip, OffsetTypeID(a, b, c)) <==> !skip(a, b, c)
  {
    NamesOffset(a, b, c, OffsetTypeID(a, b, c));
  }

  lemma {:induction false} RowMembers(skip: SkipTest, i: int, j: int, k: int, t: int)
    requires -1 <= i <= 2 && Offset(0, j, k)
    decreases i + 1
    ensures t in RowUpTo(skip, i, j, k) <==>
      Listed(skip, t) && TypeIDOffset(t).0 < i && TypeIDOffset(t).1 == j && TypeIDOffset(t).2 == k
  {
    if i > -1 {
      RowMembers(skip, i - 1, j, k, t);
      NamesOffset(i - 1, j, k, t);
      RowStep(skip, i - 1, j, k);
      ListedOffset(skip, i - 1, j, k);
      assert t in RowUpTo(skip, i, j, k) <==>
        t in RowUpTo(skip, i - 1, j, k) || (!skip(i - 1, j, k) && t == OffsetTypeID(i - 1, j, k));
    }
  }

  /** Finishing row j of layer k adds exactly the listed type IDs of that row. */
  lemma LayerStepMembers(skip: SkipTest, j: int, k: int, t: int)
    requires Offset(0, j, k)
    ensures t in LayerUpTo(skip, j + 1, k) <==>
      t in LayerUpTo(skip, j, k) || (Listed(skip, t) && TypeIDOffset(t).1 == j && TypeIDOffset(t).2 == k)
  {
    LayerStep(skip, j, k);
    RowMembers(skip, CUBE_END, j, k, t);
  }

  /** A whole layer k lists exactly the listed type IDs of that layer. */
  lemma LayerMembers(skip: SkipTest, k: int, t: int)
    requires -1 <= k <= 1
    ensures t in LayerUpTo(skip, CUBE_END, k) <==> Listed(skip, t) && TypeIDOffset(t).2 == k
  {
    LayerStepMembers(skip, -1, k, t);
    LayerStepMembers(skip, 0, k, t);
    LayerStepMembers(skip, 1, k, t);
  }

  lemma {:induction false} CubeMembers(skip: SkipTest, k: int, t: int)
    requires -1 <= k <= 2
    decreases k + 1
    ensures t in CubeUpTo(skip, k) <==> Listed(skip, t) && TypeIDOffset(t).2 < k
  {
    if k > -1 {
      CubeMembers(skip, k - 1, t);
      LayerMembers(skip, k - 1, t);
    }
  }

  /** A walk's list holds exactly the type IDs of the offsets it keeps. */
  lemma WalkMembers(skip: SkipTest, t: int)
    ensures t in WalkList(skip) <==> Listed(skip, t)
  {
    CubeMembers(skip, CUBE_END, t);
  }

  // ---------------------------------------------------------------------
  // Order

  /** Entries strictly increase, so no two are equal. */
  predicate Increasing(s: seq<nat>)
  {
    forall a, b :: 0 <= a < b < |s| ==> s[a] < s[b]
  }

  /** Every entry of s lies in lo..hi-1. */
  predicate Within(s: seq<nat>, lo: int, hi: int)
  {
    forall x :: x in s ==> lo <= x < hi
  }

  /** Joining two increasing lists whose ranges follow each other. */
  lemma IncreasingAppend(s: seq<nat>, u: seq<nat>, lo: int, mid: int, hi: int)
    requires Increasing(s) && Within(s, lo, mid)
    requires Increasing(u) && Within(u, mid, hi)
    requires lo <= mid <= hi
    ensures Increasing(s + u) && Within(s + u, lo, hi)
  {
    forall x | x in s + u
      ensures lo <= x < hi
    {
      if x in s {
      } else {
        assert x in u;
      }
    }
    forall a, b | 0 <= a < b < |s + u|
      ensures (s + u)[a] < (s + u)[b]
    {
      if a < |s| && |s| <= b {
        assert s[a] in s && u[b - |s|] in u;
      }
    }
  }

  /** Rows, layers and the cube are increasing, and lie below the type IDs of
    * the offsets the walk has not reached yet. */
  lemma {:induction false} RowIncreasing(skip: SkipTest, i: int, j: int, k: int)
    requires -1 <= i <= 2 && Offset(0, j, k)
    ensures Increasing(RowUpTo(skip, i, j, k))
    ensures Within(RowUpTo(skip, i, j, k), OffsetTypeID(-1, j, k), OffsetTypeID(-1, j, k) + i + 1)
  {
    if i > -1 {
      RowIncreasing(skip, i - 1, j, k);
      if !skip(i - 1, j, k) {
        var t := OffsetTypeID(i - 1, j, k);
        IncreasingAppend(RowUpTo(skip, i - 1, j, k), [t], OffsetTypeID(-1, j, k), t, t + 1);
      }
    }
  }

  lemma LayerStepIncreasing(skip: SkipTest, j: int, k: int)
    requires Offset(0, j, k)
    requires Increasing(LayerUpTo(skip, j, k))
    requires Within(LayerUpTo(skip, j, k), OffsetTypeID(-1, -1, k), OffsetTypeID(-1, -1, k) + 5 * (j + 1))
    ensures Increasing(LayerUpTo(skip, j + 1, k))
    ensures Within(LayerUpTo(skip, j + 1, k), OffsetTypeID(-1, -1, k), OffsetTypeID(-1, -1, k) + 5 * (j + 2))
  {
    LayerStep(skip, j, k);
    RowIncreasing(skip, CUBE_END, j, k);
    var lo := OffsetTypeID(-1, -1, k);
    assert OffsetTypeID(-1, j, k) == lo + 5 * (j + 1);
    IncreasingAppend(LayerUpTo(skip, j, k), RowUpTo(skip, CUBE_END, j, k), lo, lo + 5 * (j + 1), lo + 5 * (j + 1) + 3);
  }

  lemma LayerIncreasing(skip: SkipTest, k: int)
    requires -1 <= k <= 1
    ensures Increasing(LayerUpTo(skip, CUBE_END, k))
    ensures Within(LayerUpTo(skip, CUBE_END, k), OffsetTypeID(-1, -1, k), OffsetTypeID(-1, -1, k) + 15)
  {
    LayerStepIncreasing(skip, -1, k);
    LayerStepIncreasing(skip, 0, k);
    LayerStepIncreasing(skip, 1, k);
  }

  lemma {:induction false} CubeIncreasing(skip: SkipTest, k: int)
    requires -1 <= k <= 2
    ensures Increasing(CubeUpTo(skip, k))
    ensures Within(CubeUpTo(skip, k), 31, 31 + 25 * (k + 1))
  {
    if k > -1 {
      CubeIncreasing(skip, k - 1);
      LayerIncreasing(skip, k - 1);
      IncreasingAppend(CubeUpTo(skip, k - 1), LayerUpTo(skip, CUBE_END, k - 1), 31, 31 + 25 * k, 31 + 25 * k + 15);
    }
  }

  /** A walk's list is strictly increasing, hence free of duplicates. */
  lemma WalkIncreasing(skip: SkipTest)
    ensures Increasing(WalkList(skip))
  {
    CubeIncreasing(skip, CUBE_END);
  }

  /** Two increasing lists with the same members are equal. */
  lemma {:induction false} IncreasingUnique(a: seq<nat>, b: seq<nat>)
    requires Increasing(a) && Increasing(b)
    requires forall t :: t in a <==> t in b
    ensures a == b
  {
    if |a| > 0 {
      assert a[0] in b;
    }
    if |b| > 0 {
      assert b[0] in a;
    }
    if |a| > 0 && |b| > 0 {
      assert a[0] == b[0] by {
        assert a[0] in b && b[0] in a;
      }
      assert forall t :: t in a[1..] <==> t in b[1..] by {
        forall t
          ensures t in a[1..] <==> t in b[1..]
        {
          if t in a[1..] {
            InTail(a, b, t);
          }
          if t in b[1..] {
            InTail(b, a, t);
          }
        }
      }
      IncreasingUnique(a[1..], b[1..]);
      assert a == [a[0]] + a[1..] && b == [b[0]] + b[1..];
    }
  }

  /** A member of an increasing list's tail is a member of the tail of any
    * increasing list with the same members and the same head. */
  lemma InTail(a: seq<nat>, b: seq<nat>, t: nat)
    requires Increasing(a) && Increasing(b) && |a| > 0 && |b| > 0 && a[0] == b[0]
    requires forall x :: x in a <==> x in b
    requires t in a[1..]
    ensures t in b[1..]
  {
    var x :| 0 <= x < |a| - 1 && a[1..][x] == t;
    assert a[x + 1] == t && t > a[0];
    assert t in b;
    var y :| 0 <= y < |b| && b[y] == t;
    assert b[1..][y - 1] == t;
  }

  // ---------------------------------------------------------------------
  // Lengths

  /** How many offsets of row (j,k) a walk keeps. */
  function KeptInRow(skip: SkipTest, j: int, k: int): nat
  {
    (if skip(-1, j, k) then 0 else 1) +
    (if skip(0, j, k) then 0 else 1) +
    (if skip(1, j, k) then 0 else 1)
  }

  lemma RowLength(skip: SkipTest, j: int, k: int)
    requires Offset(0, j, k)
    ensures |RowUpTo(skip, CUBE_END, j, k)| == KeptInRow(skip, j, k)
  {
  }

  lemma LayerLength(skip: SkipTest, k: int)
    requires -1 <= k <= 1
    ensures |LayerUpTo(skip, CUBE_END, k)| == KeptInRow(skip, -1, k) + KeptInRow(skip, 0, k) + KeptInRow(skip, 1, k)
  {
    RowLength(skip, -1, k);
    RowLength(skip, 0, k);
    RowLength(skip, 1, k);
  }

  /** A walk's list is as long as the number of offsets it keeps. */
  lemma WalkLength(skip: SkipTest)
    ensures |WalkList(skip)| ==
      KeptInRow(skip, -1, -1) + KeptInRow(skip, 0, -1) + KeptInRow(skip, 1, -1) +
      KeptInRow(skip, -1, 0) + KeptInRow(skip, 0, 0) + KeptInRow(skip, 1, 0) +
      KeptInRow(skip, -1, 1) + KeptInRow(skip, 0, 1) + KeptInRow(skip, 1, 1)
  {
    LayerLength(skip, -1);
    LayerLength(skip, 0);
    LayerLength(skip, 1);
  }

  /** Stencil 1 receives from 18 of the 26 neighbours. */
  lemma Stencil1ReceiveLength()
    ensures |Stencil1Receives()| == 18
  {
    WalkLength(Stencil1ReceiveSkips);
  }

  /** Stencil 1 sends to 18 of the 26 neighbours. */
  lemma Stencil1SendLength()
    ensures |Stencil1Sends()| == 18
  {
    WalkLength(Stencil1SendSkips);
  }

  /** Stencil 3 exchanges with all 26 neighbours. */
  lemma AllNeighboursLength()
    ensures |AllNeighbourTypeIDs()| == 26
  {
    WalkLength(CentreOnly);
  }

  // ---------------------------------------------------------------------
  // What the lists contain

  /** A walk that skips the cell itself, as all three do, does not list it
    * (type ID 62). */
  lemma CellItselfNotListed(skip: SkipTest)
    requires skip(0, 0, 0)
    ensures NbrTypeID(2, 2, 2) !in WalkList(skip)
  {
    NamesOffset(0, 0, 0, 62);
    WalkMembers(skip, 62);
  }

  /** Stencil 3 lists exactly the type IDs of the 26 neighbours of the cube. */
  lemma AllNeighboursMembers(t: int)
    ensures t in AllNeighbourTypeIDs() <==>
      0 <= t < 125 && Offset(TypeIDOffset(t).0, TypeIDOffset(t).1, TypeIDOffset(t).2) &&
      TypeIDOffset(t) != (0, 0, 0)
  {
    WalkMembers(CentreOnly, t);
  }

  /** Stencil 1 keeps offset (i,j,k) for sending exactly when it keeps
    * (-i,-j,-k) for receiving, and the two type IDs are mirror images. */
  lemma SendKeepsMirror(i: int, j: int, k: int)
    requires Offset(i, j, k)
    ensures Kept(Stencil1SendSkips, i, j, k) <==> Kept(Stencil1ReceiveSkips, -i, -j, -k)
    ensures OffsetTypeID(-i, -j, -k) == Mirror(OffsetTypeID(i, j, k))
  {
  }

  /** A type ID is sent by stencil 1 exactly when its mirror image is received. */
  lemma Stencil1SendMembers(t: int)
    ensures t in Stencil1Sends() <==> Mirror(t) in Stencil1Receives()
  {
    WalkMembers(Stencil1SendSkips, t);
    WalkMembers(Stencil1ReceiveSkips, Mirror(t));
    if 0 <= t < 125 {
      MirrorNegatesOffset(t);
      var o := TypeIDOffset(t);
      if Offset(o.0, o.1, o.2) {
        SendKeepsMirror(o.0, o.1, o.2);
      }
    }
  }

  /** Every type ID of a walk's list is a neighbour of the cube. */
  lemma WalkBounds(skip: SkipTest, q: int)
    requires 0 <= q < |WalkList(skip)|
    ensures 31 <= WalkList(skip)[q] <= 93
  {
    var t := WalkList(skip)[q];
    WalkMembers(skip, t);
    var o := TypeIDOffset(t);
    NamesOffset(o.0, o.1, o.2, t);
  }

  /** The list r mirrored and reversed. */
  function ReverseMirror(r: seq<nat>): (m: seq<nat>)
    requires forall q :: 0 <= q < |r| ==> r[q] <= 124
    ensures |m| == |r|
  {
    seq(|r|, q requires 0 <= q < |r| => 124 - r[|r| - 1 - q])
  }

  /** Mirroring and reversing an increasing list keeps it increasing, and
    * holds exactly the mirror images of its entries. */
  lemma ReverseMirrorMembers(r: seq<nat>, t: nat)
    requires forall q :: 0 <= q < |r| ==> r[q] <= 124
    requires Increasing(r)
    ensures Increasing(ReverseMirror(r))
    ensures t in ReverseMirror(r) <==> Mirror(t) in r
  {
    var m := ReverseMirror(r);
    var n := |r|;
    if Mirror(t) in r {
      var x :| 0 <= x < n && r[x] == Mirror(t);
      assert m[n - 1 - x] == t;
    }
  }

  /** The send list of stencil 1 is its receive list mirrored and reversed:
    * a process sends to the neighbours on the opposite side of those it
    * receives from. */
  lemma Stencil1SendsMirrorReceives()
    ensures forall q :: 0 <= q < |Stencil1Receives()| ==> Stencil1Receives()[q] <= 124
    ensures Stencil1Sends() == ReverseMirror(Stencil1Receives())
  {
    var r := Stencil1Receives();
    forall q | 0 <= q < |r|
      ensures r[q] <= 124
    {
      WalkBounds(Stencil1ReceiveSkips, q);
    }
    WalkIncreasing(Stencil1ReceiveSkips);
    WalkIncreasing(Stencil1SendSkips);
    forall t: nat
      ensures t in Stencil1Sends() <==> t in ReverseMirror(r)
    {
      Stencil1SendMembers(t);
      ReverseMirrorMembers(r, t);
    }
    ReverseMirrorMembers(r, 0);
    IncreasingUnique(Stencil1Sends(), ReverseMirror(r));
  }

  /** Stencil 2 receives from the six neighbours on the +x, +y, +z side and
    * sends to their mirror images, in the same order. */
  lemma Stencil2SendsMirrorReceives()
    ensures |Stencil2Lists().receives| == |Stencil2Lists().sends| == 6
    ensures forall q :: 0 <= q < 6 ==> Stencil2Lists().sends[q] == Mirror(Stencil2Lists().receives[q])
    ensures forall t :: t in Stencil2Lists().receives ==> t > NbrTypeID(2, 2, 2)
  {
  }

  // ---------------------------------------------------------------------
  // Rebuilding the stencils

  /** The three stencils as propagateFields rebuilds them when asked to:
    * stencil 1 and stencil 2 from their own builders and stencil 3, which
    * every exchange of the passes uses, from all 26 neighbours, as
    * initializeFieldPropagator builds it. */
  function RebuiltStencils(): (StencilLists, StencilLists, StencilLists)
  {
    (StencilLists(Stencil1Receives(), Stencil1Sends()), Stencil2Lists(),
     StencilLists(AllNeighbourTypeIDs(), AllNeighbourTypeIDs()))
  }

  /** The rebuild as written: stencil 3 is rebuilt by
    * calculateTransferStencil2. */
  function RebuiltStencilsAsWritten(): (StencilLists, StencilLists, StencilLists)
  {
    (StencilLists(Stencil1Receives(), Stencil1Sends()), Stencil2Lists(), Stencil2Lists())
  }

  /** After the corrected rebuild stencil 3 still receives from, and sends
    * to, every one of the 26 neighbours of the 3x3x3 block. */
  lemma RebuiltStencil3Complete(i: int, j: int, k: int)
    requires Offset(i, j, k) && (i, j, k) != (0, 0, 0)
    ensures OffsetTypeID(i, j, k) in RebuiltStencils().2.receives
    ensures OffsetTypeID(i, j, k) in RebuiltStencils().2.sends
  {
    NamesOffset(i, j, k, OffsetTypeID(i, j, k));
    AllNeighboursMembers(OffsetTypeID(i, j, k));
  }

  /** The rebuild as written shrinks stencil 3 from 26 neighbours to six and
    * drops the neighbour at offset (0,-1,-1), whose data the x-edge E of
    * the cell reads. */
  lemma RebuildAsWrittenDropsNeighbours()
    ensures |RebuiltStencilsAsWritten().2.receives| == 6
    ensures |RebuiltStencils().2.receives| == 26
    ensures OffsetTypeID(0, -1, -1) !in RebuiltStencilsAsWritten().2.receives
    ensures OffsetTypeID(0, -1, -1) in RebuiltStencils().2.receives
  {
    Stencil2SendsMirrorReceives();
    AllNeighboursLength();
    RebuiltStencil3Complete(0, -1, -1);
  }
}
