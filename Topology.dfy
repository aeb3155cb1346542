/** Single bits of an unsigned 32-bit word, the representation of the
  * field solver's neighbour-existence flags and capability masks. */
module Bits {

  /** A bit position of an unsigned 32-bit word. */
  type BitIndex = b: nat | b < 32

  /** An unsigned 32-bit word, as the set of its raised bits: b in w means
    * the bit of value 1 << b is set. */
  type Word = set<BitIndex>

  /** The word 0. */
  const ZERO: Word := {}

  /** The word 1 << n. */
  function Shl(n: BitIndex): (w: Word)
    ensures forall b: BitIndex :: b in w <==> b == n
  {
    {n}
  }

  /** Bitwise OR. */
  function Or(a: Word, c: Word): (w: Word)
    ensures forall b: BitIndex :: b in w <==> b in a || b in c
  {
    a + c
  }

  /** Bitwise AND. */
  function And(a: Word, c: Word): (w: Word)
    ensures forall b: BitIndex :: b in w <==> b in a && b in c
  {
    a * c
  }

  /** Whether bit n of a word is set. */
  predicate Bit(w: Word, n: BitIndex)
  {
    n in w
  }

  /** Whether a word contains every bit of a mask. */
  predicate Has(w: Word, m: Word)
  {
    m <= w
  }

  /** Bit n is set iff (w & (1 << n)) != 0, the source's test of one bit. */
  lemma BitIsAndShl(w: Word, n: BitIndex)
    ensures Bit(w, n) <==> And(w, Shl(n)) != ZERO
  {
    if n in w {
      assert n in And(w, Shl(n));
    }
  }

  /** A word contains a mask iff (w & m) == m, the source's gate. */
  lemma HasIsAndEq(w: Word, m: Word)
    ensures Has(w, m) <==> And(w, m) == m
  {
    if And(w, m) == m {
      forall b: BitIndex | b in m
        ensures b in w
      {
        assert b in And(w, m);
      }
    }
  }

  /** A word contains the union of a mask and one bit iff it contains both. */
  lemma HasOr(w: Word, mask: Word, b: BitIndex)
    ensures Has(w, Or(mask, Shl(b))) <==> Has(w, mask) && Bit(w, b)
  {
    if Has(w, Or(mask, Shl(b))) {
      assert b in Or(mask, Shl(b));
    }
  }
}

/** Neighbour numbering and neighbour-existence bit masks of the
  * Londrillo–Del Zanna field solver.
  *
  * A cell and its 26 neighbours form a 3x3x3 cube. Position (i,j,k) with
  * 0 <= i,j,k < 3 is the "neighbour number" k*9+j*3+i; the cell itself is
  * (1,1,1), number 13. The mesh names neighbours by a "type ID" on a 5x5x5
  * cube, k*25+j*5+i, whose centre (2,2,2) is type ID 62. A 32-bit word
  * holds one existence bit per neighbour number. */
module NeighbourTopology {

  import opened Bits

  /** Cell identifiers of the mesh substrate. */
  type CellID = nat

  /** The sentinel the mesh returns for a neighbour that does not exist. */
  const INVALID_CELLID: CellID := 0xFFFF_FFFF

  /** A neighbour query of the mesh: the neighbour of a cell with a given type ID. */
  type NeighbourQuery = (CellID, nat) -> CellID

  // ---------------------------------------------------------------------
  // Numbering

  /** Neighbour number of position (i,j,k) of the 3x3x3 cube. */
  function NbrNumber(i: nat, j: nat, k: nat): (n: nat)
    requires i < 3 && j < 3 && k < 3
    ensures n < 27
  {
    k * 9 + j * 3 + i
  }

  /** Position of neighbour number n: the inverse of NbrNumber. */
  function NbrPosition(n: nat): (p: (nat, nat, nat))
    requires n < 27
    ensures p.0 < 3 && p.1 < 3 && p.2 < 3
  {
    (n % 3, (n / 3) % 3, n / 9)
  }

  /** Neighbour type ID of position (i,j,k) of the 5x5x5 cube. The source
    * computes it in an unsigned char; the largest value is 124, so it never wraps. */
  function NbrTypeID(i: nat, j: nat, k: nat): (t: nat)
    requires i < 5 && j < 5 && k < 5
    ensures t < 125
  {
    k * 25 + j * 5 + i
  }

  /** Position of type ID t: the inverse of NbrTypeID. */
  function TypeIDPosition(t: nat): (p: (nat, nat, nat))
    requires t < 125
    ensures p.0 < 5 && p.1 < 5 && p.2 < 5
  {
    (t % 5, (t / 5) % 5, t / 25)
  }

  /** Neighbour numbers and positions are in one-to-one correspondence. */
  lemma NbrNumberBijective(i: nat, j: nat, k: nat, n: nat)
    requires i < 3 && j < 3 && k < 3 && n < 27
    ensures NbrPosition(NbrNumber(i, j, k)) == (i, j, k)
    ensures NbrNumber(NbrPosition(n).0, NbrPosition(n).1, NbrPosition(n).2) == n
    ensures NbrNumber(1, 1, 1) == 13
  {
    NumberDecodes(i, j, k);
    NumberEncodes(n);
  }

  lemma NumberDecodes(i: nat, j: nat, k: nat)
    requires i < 3 && j < 3 && k < 3
    ensures (k * 9 + j * 3 + i) / 9 == k
    ensures ((k * 9 + j * 3 + i) / 3) % 3 == j && (k * 9 + j * 3 + i) % 3 == i
  {
  }

  lemma NumberEncodes(n: nat)
    requires n < 27
    ensures (n / 9) * 9 + ((n / 3) % 3) * 3 + n % 3 == n
  {
  }

  /** Type IDs and positions are in one-to-one correspondence. */
  lemma NbrTypeIDBijective(i: nat, j: nat, k: nat, t: nat)
    requires i < 5 && j < 5 && k < 5 && t < 125
    ensures TypeIDPosition(NbrTypeID(i, j, k)) == (i, j, k)
    ensures NbrTypeID(TypeIDPosition(t).0, TypeIDPosition(t).1, TypeIDPosition(t).2) == t
    ensures NbrTypeID(2, 2, 2) == 62
  {
    TypeIDDecodes(i, j, k);
    TypeIDEncodes(t);
  }

  lemma TypeIDDecodes(i: nat, j: nat, k: nat)
    requires i < 5 && j < 5 && k < 5
    ensures (k * 25 + j * 5 + i) / 25 == k
    ensures ((k * 25 + j * 5 + i) / 5) % 5 == j && (k * 25 + j * 5 + i) % 5 == i
  {
  }

  lemma TypeIDEncodes(t: nat)
    requires t < 125
    ensures (t / 25) * 25 + ((t / 5) % 5) * 5 + t % 5 == t
  {
  }

  /** The type ID of the neighbour whose existence bit is n: position (i,j,k)
    * of the small cube is offset (i-1,j-1,k-1), which is position
    * (i+1,j+1,k+1) of the large cube. */
  function BitTypeID(n: nat): (t: nat)
    requires n < 27
    ensures t < 125
  {
    var p := NbrPosition(n);
    NbrTypeID(p.0 + 1, p.1 + 1, p.2 + 1)
  }

  /** Negating an offset maps neighbour number n to 26-n and type ID t to 124-t. */
  lemma NegationReflectsNumbers(i: nat, j: nat, k: nat)
    requires i < 3 && j < 3 && k < 3
    ensures NbrNumber(2 - i, 2 - j, 2 - k) == 26 - NbrNumber(i, j, k)
    ensures NbrTypeID(3 - i, 3 - j, 3 - k) == 124 - NbrTypeID(i + 1, j + 1, k + 1)
  {
  }

  // ---------------------------------------------------------------------
  // Existence mask

  /** Whether the neighbour with existence bit n exists. */
  predicate NbrExists(g: NeighbourQuery, cell: CellID, n: nat)
    requires n < 27
  {
    g(cell, BitTypeID(n)) != INVALID_CELLID
  }

  /** The flag word after bit positions 0..n-1 of the cube have been visited:
    * bit 13 is raised first, then the bit of every existing neighbour. */
  function FlagPrefix(g: NeighbourQuery, cell: CellID, n: nat): Word
    requires n <= 27
  {
    if n == 0 then Shl(NbrNumber(1, 1, 1))
    else if n - 1 != 13 && NbrExists(g, cell, n - 1) then Or(FlagPrefix(g, cell, n - 1), Shl(n - 1))
    else FlagPrefix(g, cell, n - 1)
  }

  /** The existence flag word of a cell. */
  function ExistenceMask(g: NeighbourQuery, cell: CellID): Word
  {
    FlagPrefix(g, cell, 27)
  }

  /** Bit b of a prefix is set iff b is the cell itself, or b was visited
    * and that neighbour exists. */
  lemma {:induction false} FlagPrefixBits(g: NeighbourQuery, cell: CellID, n: nat, b: BitIndex)
    requires n <= 27
    ensures Bit(FlagPrefix(g, cell, n), b) <==> b == 13 || (b < n && NbrExists(g, cell, b))
  {
    if n == 0 {
      assert Bit(Shl(13), b) <==> b == 13;
    } else {
      FlagPrefixBits(g, cell, n - 1, b);
    }
  }

  /** The existence mask has bit 13 set, bit b < 27 set iff that neighbour
    * exists, and no bit above 26. */
  lemma ExistenceMaskBits(g: NeighbourQuery, cell: CellID, b: BitIndex)
    ensures Bit(ExistenceMask(g, cell), b) <==> b == 13 || (b < 27 && NbrExists(g, cell, b))
  {
    FlagPrefixBits(g, cell, 27, b);
  }

  /** The body of calculateBoundaryFlags for one cell: raise bit 13, then
    * visit the 26 neighbours in k, j, i order and raise the bit of each one
    * the mesh reports as existing. */
  method CalculateBoundaryFlag(g: NeighbourQuery, cell: CellID) returns (flag: Word)
    ensures flag == ExistenceMask(g, cell)
    ensures forall b: BitIndex ::
      (Bit(flag, b) <==> b == 13 || (b < 27 && NbrExists(g, cell, b)))
  {
    flag := Shl(NbrNumber(1, 1, 1));
    ghost var pos: nat := 0;
    var k := -1;
    while k < 2
      invariant -1 <= k <= 2 && pos == (k + 1) * 9
      invariant flag == FlagPrefix(g, cell, pos)
    {
      var j := -1;
      while j < 2
        invariant -1 <= j <= 2 && pos == (k + 1) * 9 + (j + 1) * 3
        invariant flag == FlagPrefix(g, cell, pos)
      {
        var i := -1;
        while i < 2
          invariant -1 <= i <= 2 && pos == (k + 1) * 9 + (j + 1) * 3 + (i + 1)
          invariant flag == FlagPrefix(g, cell, pos)
        {
          flag := VisitNeighbour(g, cell, i, j, k, flag, pos);
          pos := pos + 1;
          i := i + 1;
        }
        j := j + 1;
      }
      k := k + 1;
    }
    forall b: BitIndex
      ensures Bit(flag, b) <==> b == 13 || (b < 27 && NbrExists(g, cell, b))
    {
      ExistenceMaskBits(g, cell, b);
    }
  }

  /** The body of the innermost loop of calculateBoundaryFlags: raise the bit
    * of offset (i,j,k) when it is not the cell itself and the mesh reports
    * that neighbour. */
  method VisitNeighbour(g: NeighbourQuery, cell: CellID, i: int, j: int, k: int, flag: Word, ghost pos: nat)
    returns (next: Word)
    requires -1 <= i <= 1 && -1 <= j <= 1 && -1 <= k <= 1
    requires pos == (k + 1) * 9 + (j + 1) * 3 + (i + 1) && flag == FlagPrefix(g, cell, pos)
    ensures pos < 27 && next == FlagPrefix(g, cell, pos + 1)
  {
    FlagPrefixStep(g, cell, i, j, k, pos);
    next := flag;
    var n := NbrNumber(1 + i, 1 + j, 1 + k);
    if !(i == 0 && j == 0 && k == 0) {
      var nbr := g(cell, NbrTypeID(2 + i, 2 + j, 2 + k));
      if nbr != INVALID_CELLID {
        next := Or(flag, Shl(n));
      }
    }
  }

  /** One iteration of the loop of CalculateBoundaryFlag extends the prefix by
    * the bit of offset (i,j,k) when that neighbour is not the cell itself and
    * exists. */
  lemma FlagPrefixStep(g: NeighbourQuery, cell: CellID, i: int, j: int, k: int, pos: nat)
    requires -1 <= i <= 1 && -1 <= j <= 1 && -1 <= k <= 1
    requires pos == (k + 1) * 9 + (j + 1) * 3 + (i + 1)
    ensures pos < 27 && NbrNumber(1 + i, 1 + j, 1 + k) == pos
    ensures (i == 0 && j == 0 && k == 0) || g(cell, NbrTypeID(2 + i, 2 + j, 2 + k)) == INVALID_CELLID ==>
      FlagPrefix(g, cell, pos + 1) == FlagPrefix(g, cell, pos)
    ensures !(i == 0 && j == 0 && k == 0) && g(cell, NbrTypeID(2 + i, 2 + j, 2 + k)) != INVALID_CELLID ==>
      FlagPrefix(g, cell, pos + 1) == Or(FlagPrefix(g, cell, pos), Shl(pos))
  {
    OffsetBit(i, j, k, pos);
  }

  /** Offset (i,j,k) has neighbour number pos, and bit pos stands for the
    * neighbour with type ID NbrTypeID(2+i,2+j,2+k). */
  lemma OffsetBit(i: int, j: int, k: int, pos: nat)
    requires -1 <= i <= 1 && -1 <= j <= 1 && -1 <= k <= 1
    requires pos == (k + 1) * 9 + (j + 1) * 3 + (i + 1)
    ensures pos < 27 && NbrNumber(1 + i, 1 + j, 1 + k) == pos
    ensures BitTypeID(pos) == NbrTypeID(2 + i, 2 + j, 2 + k)
  {
    NbrNumberBijective(1 + i, 1 + j, 1 + k, pos);
  }

  // ---------------------------------------------------------------------
  // Capability masks

  /** The nine capabilities the field solver gates on a cell's existence flags. */
  datatype Capability =
    | CalculateDX | CalculateDY | CalculateDZ
    | CalculateEX | CalculateEY | CalculateEZ
    | PropagateBX | PropagateBY | PropagateBZ

  /** The face neighbours, as positions of the 3x3x3 cube. */
  const MINUS_X: (nat, nat, nat) := (0, 1, 1)
  const PLUS_X: (nat, nat, nat) := (2, 1, 1)
  const MINUS_Y: (nat, nat, nat) := (1, 0, 1)
  const PLUS_Y: (nat, nat, nat) := (1, 2, 1)
  const MINUS_Z: (nat, nat, nat) := (1, 1, 0)
  const PLUS_Z: (nat, nat, nat) := (1, 1, 2)

  /** The neighbours each capability requires, in the order the source ORs their bits. */
  function RequiredNeighbours(cap: Capability): (ps: seq<(nat, nat, nat)>)
    ensures forall q :: 0 <= q < |ps| ==> InCube(ps[q]) && ps[q] != (1, 1, 1)
  {
    match cap
    case CalculateDX => [MINUS_X, PLUS_X]
    case CalculateDY => [MINUS_Y, PLUS_Y]
    case CalculateDZ => [MINUS_Z, PLUS_Z]
    case CalculateEX => [MINUS_Y, MINUS_Z, MINUS_X, PLUS_X]
    case CalculateEY => [MINUS_X, MINUS_Z, MINUS_Y, PLUS_Y]
    case CalculateEZ => [MINUS_X, MINUS_Y, MINUS_Z, PLUS_Z]
    case PropagateBX => [MINUS_X, MINUS_Y, PLUS_Y, MINUS_Z, PLUS_Z]
    case PropagateBY => [MINUS_Y, MINUS_X, PLUS_X, MINUS_Z, PLUS_Z]
    case PropagateBZ => [MINUS_Z, MINUS_X, PLUS_X, MINUS_Y, PLUS_Y]
  }

  predicate InCube(p: (nat, nat, nat))
  {
    p.0 < 3 && p.1 < 3 && p.2 < 3
  }

  /** The type ID of the neighbour at position p of the 3x3x3 cube. */
  function PositionTypeID(p: (nat, nat, nat)): (t: nat)
    requires InCube(p)
    ensures t < 125
  {
    NbrTypeID(p.0 + 1, p.1 + 1, p.2 + 1)
  }

  /** A mask built as the source builds it: start from 0 and OR in the bit
    * of each position in turn. */
  function MaskOf(ps: seq<(nat, nat, nat)>): Word
    requires forall q :: 0 <= q < |ps| ==> InCube(ps[q])
  {
    if |ps| == 0 then ZERO
    else
      var p := ps[|ps| - 1];
      assert InCube(p);
      Or(MaskOf(ps[..|ps| - 1]), Shl(NbrNumber(p.0, p.1, p.2)))
  }

  /** The mask of a capability (CALCULATE_DX, ..., PROPAGATE_BZ). */
  function CapabilityMask(cap: Capability): Word
  {
    MaskOf(RequiredNeighbours(cap))
  }

  /** A word contains a built mask iff it has the bit of every listed position. */
  lemma {:induction false} HasMaskOf(w: Word, ps: seq<(nat, nat, nat)>)
    requires forall q :: 0 <= q < |ps| ==> InCube(ps[q])
    ensures Has(w, MaskOf(ps)) <==>
      forall q :: 0 <= q < |ps| ==> Bit(w, NbrNumber(ps[q].0, ps[q].1, ps[q].2))
  {
    if |ps| > 0 {
      var front := ps[..|ps| - 1];
      var p := ps[|ps| - 1];
      HasMaskOf(w, front);
      HasOr(w, MaskOf(front), NbrNumber(p.0, p.1, p.2));
      assert forall q :: 0 <= q < |front| ==> front[q] == ps[q];
    }
  }

  /** Bit NbrNumber(p) of a cell's existence mask, for a position p other
    * than the cell itself, says whether that neighbour exists. */
  lemma PositionBit(g: NeighbourQuery, cell: CellID, p: (nat, nat, nat))
    requires InCube(p) && p != (1, 1, 1)
    ensures Bit(ExistenceMask(g, cell), NbrNumber(p.0, p.1, p.2)) <==>
      g(cell, PositionTypeID(p)) != INVALID_CELLID
  {
    var n := NbrNumber(p.0, p.1, p.2);
    OffsetBit(p.0 - 1, p.1 - 1, p.2 - 1, n);
    ExistenceMaskBits(g, cell, n);
  }

  /** Whether every listed position, other than the cell itself, names a
    * neighbour the mesh reports. */
  predicate AllExist(g: NeighbourQuery, cell: CellID, ps: seq<(nat, nat, nat)>)
    requires forall q :: 0 <= q < |ps| ==> InCube(ps[q])
  {
    forall q :: 0 <= q < |ps| ==> g(cell, PositionTypeID(ps[q])) != INVALID_CELLID
  }

  /** A cell's existence mask contains a mask built from positions other than
    * the cell itself iff all those neighbours exist. */
  lemma HasMaskOfExisting(g: NeighbourQuery, cell: CellID, ps: seq<(nat, nat, nat)>)
    requires forall q :: 0 <= q < |ps| ==> InCube(ps[q]) && ps[q] != (1, 1, 1)
    ensures Has(ExistenceMask(g, cell), MaskOf(ps)) <==> AllExist(g, cell, ps)
  {
    HasMaskOf(ExistenceMask(g, cell), ps);
    forall q | 0 <= q < |ps|
      ensures Bit(ExistenceMask(g, cell), NbrNumber(ps[q].0, ps[q].1, ps[q].2)) <==>
        g(cell, PositionTypeID(ps[q])) != INVALID_CELLID
    {
      PositionBit(g, cell, ps[q]);
    }
  }

  /** The gate (flags & M) == M on a cell's existence flags holds exactly when
    * every neighbour the capability requires exists. */
  lemma CapabilityGate(g: NeighbourQuery, cell: CellID, cap: Capability)
    ensures Has(ExistenceMask(g, cell), CapabilityMask(cap)) <==> AllExist(g, cell, RequiredNeighbours(cap))
  {
    HasMaskOfExisting(g, cell, RequiredNeighbours(cap));
  }

  /** Face-neighbour type IDs: -x, +x, -y, +y, -z, +z. */
  const NBR_MINUS_X: nat := NbrTypeID(1, 2, 2)
  const NBR_PLUS_X: nat := NbrTypeID(3, 2, 2)
  const NBR_MINUS_Y: nat := NbrTypeID(2, 1, 2)
  const NBR_PLUS_Y: nat := NbrTypeID(2, 3, 2)
  const NBR_MINUS_Z: nat := NbrTypeID(2, 2, 1)
  const NBR_PLUS_Z: nat := NbrTypeID(2, 2, 3)

  /** Propagating Bx on a cell requires its -x, -y, +y, -z and +z neighbours;
    * the same shape holds for every capability (CapabilityGate). */
  lemma PropagateBXGate(g: NeighbourQuery, cell: CellID)
    ensures Has(ExistenceMask(g, cell), CapabilityMask(PropagateBX)) <==>
      g(cell, NBR_MINUS_X) != INVALID_CELLID && g(cell, NBR_MINUS_Y) != INVALID_CELLID &&
      g(cell, NBR_PLUS_Y) != INVALID_CELLID && g(cell, NBR_MINUS_Z) != INVALID_CELLID &&
      g(cell, NBR_PLUS_Z) != INVALID_CELLID
  {
    CapabilityGate(g, cell, PropagateBX);
    var ps := RequiredNeighbours(PropagateBX);
    assert ps[0] == MINUS_X && ps[1] == MINUS_Y && ps[2] == PLUS_Y && ps[3] == MINUS_Z && ps[4] == PLUS_Z;
  }
}
