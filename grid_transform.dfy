/**
 * Discrete tile coordinates and their vector algebra (src/graph/grid_transform.rs).
 *
 * The source stores both coordinates as Rust `i16`, whose arithmetic panics on
 * overflow in debug builds; here every operation that could overflow carries the
 * absence of overflow as its precondition.
 */
module GridTransforms {
  import opened Wrappers

  const I16_MIN: int := -0x8000
  const I16_MAX: int := 0x7fff
  const U32_LIMIT: int := 0x1_0000_0000

  predicate InI16(v: int) { I16_MIN <= v <= I16_MAX }

  /** A Rust `i16`. */
  type I16 = v: int | InI16(v)

  /** A Rust `u32`. */
  type U32 = v: int | 0 <= v < U32_LIMIT

  /** A tile address or a displacement between tiles. */
  datatype GridTransform = GridTransform(x: I16, y: I16)

  const ZERO: GridTransform := GridTransform(0, 0)
  const NORTH: GridTransform := GridTransform(0, 1)
  const NORTH_EAST: GridTransform := GridTransform(1, 1)
  const EAST: GridTransform := GridTransform(1, 0)
  const SOUTH_EAST: GridTransform := GridTransform(1, -1)
  const SOUTH: GridTransform := GridTransform(0, -1)
  const SOUTH_WEST: GridTransform := GridTransform(-1, -1)
  const WEST: GridTransform := GridTransform(-1, 0)
  const NORTH_WEST: GridTransform := GridTransform(-1, 1)

  /** The four unit steps, in the order the source lists them. */
  const CARDINALS: seq<GridTransform> := [NORTH, EAST, SOUTH, WEST]

  /** The eight unit steps, clockwise from north. */
  const ORDINALS: seq<GridTransform> :=
    [NORTH, NORTH_EAST, EAST, SOUTH_EAST, SOUTH, SOUTH_WEST, WEST, NORTH_WEST]

  predicate IsCardinal(d: GridTransform) {
    d == NORTH || d == EAST || d == SOUTH || d == WEST
  }

  predicate CanAdd(a: GridTransform, b: GridTransform) {
    InI16(a.x + b.x) && InI16(a.y + b.y)
  }

  predicate CanSub(a: GridTransform, b: GridTransform) {
    InI16(a.x - b.x) && InI16(a.y - b.y)
  }

  predicate CanNeg(a: GridTransform) {
    InI16(-(a.x as int)) && InI16(-(a.y as int))
  }

  predicate CanMult(a: GridTransform, k: int) {
    InI16(a.x * k) && InI16(a.y * k)
  }

  /** `a + b`, componentwise. */
  function Add(a: GridTransform, b: GridTransform): GridTransform
    requires CanAdd(a, b)
  {
    GridTransform(a.x + b.x, a.y + b.y)
  }

  /** `a - b`, componentwise. */
  function Sub(a: GridTransform, b: GridTransform): GridTransform
    requires CanSub(a, b)
  {
    GridTransform(a.x - b.x, a.y - b.y)
  }

  /** `-a`, componentwise. */
  function Neg(a: GridTransform): GridTransform
    requires CanNeg(a)
  {
    GridTransform(-a.x, -a.y)
  }

  /**
   * `a.mult(k)`: the sight scan scales a direction by a step count. The method is
   * not defined in any of the modelled files; it is taken to be componentwise scaling.
   */
  function Mult(a: GridTransform, k: int): GridTransform
    requires CanMult(a, k)
  {
    GridTransform(a.x * k, a.y * k)
  }

  lemma {:induction false} AddThenSub(a: GridTransform, b: GridTransform)
    requires CanAdd(a, b)
    ensures CanSub(Add(a, b), b) && Sub(Add(a, b), b) == a
  {
  }

  lemma {:induction false} AddNegIsZero(a: GridTransform)
    requires CanNeg(a)
    ensures CanAdd(a, Neg(a)) && Add(a, Neg(a)) == ZERO
  {
  }

  lemma {:induction false} AddCommutes(a: GridTransform, b: GridTransform)
    requires CanAdd(a, b)
    ensures CanAdd(b, a) && Add(a, b) == Add(b, a)
  {
  }

  lemma {:induction false} SubIsAddNeg(a: GridTransform, b: GridTransform)
    requires CanSub(a, b) && CanNeg(b)
    ensures CanAdd(a, Neg(b)) && Sub(a, b) == Add(a, Neg(b))
  {
  }

  /** No neighbour computation overflows. */
  predicate HasNeighbors(p: GridTransform) {
    I16_MIN < p.x < I16_MAX && I16_MIN < p.y < I16_MAX
  }

  /** The four tiles next to `p`, in the order of CARDINALS. */
  function Neighbors(p: GridTransform): (r: seq<GridTransform>)
    requires HasNeighbors(p)
    ensures |r| == 4
    ensures forall i :: 0 <= i < 4 ==> CanAdd(p, CARDINALS[i]) && r[i] == Add(p, CARDINALS[i])
  {
    [Add(p, NORTH), Add(p, EAST), Add(p, SOUTH), Add(p, WEST)]
  }

  function Abs(v: int): nat { if v < 0 then -v else v }

  /** Manhattan distance between two tiles. */
  function Distance(a: GridTransform, b: GridTransform): nat {
    Abs(a.x - b.x) + Abs(a.y - b.y)
  }

  /** The neighbours are exactly the tiles at Manhattan distance one. */
  lemma {:induction false} NeighborsAreAdjacent(p: GridTransform, q: GridTransform)
    requires HasNeighbors(p)
    ensures q in Neighbors(p) <==> Distance(p, q) == 1
  {
    var n := Neighbors(p);
    if Distance(p, q) == 1 {
      if q.x == p.x + 1 {
        assert q == n[1];
      } else if q.x == p.x - 1 {
        assert q == n[3];
      } else if q.y == p.y + 1 {
        assert q == n[0];
      } else {
        assert q == n[2];
      }
    }
  }

  /** The four neighbours are pairwise distinct. */
  lemma NeighborsDistinct(p: GridTransform)
    requires HasNeighbors(p)
    ensures forall i, j :: 0 <= i < j < 4 ==> Neighbors(p)[i] != Neighbors(p)[j]
  {
  }

  function BoolAsNat(b: bool): nat { if b then 1 else 0 }

  /**
   * The row of a direction in a four-direction sprite sheet, computed as the
   * source does it: each direction test contributes its index times 0 or 1, so
   * every vector that is not a cardinal unit step lands on 0.
   */
  function CardinalIndex(d: GridTransform): (r: nat)
    ensures r <= 3
    ensures r == 1 <==> d == EAST
    ensures r == 2 <==> d == SOUTH
    ensures r == 3 <==> d == WEST
    ensures r == 0 <==> d != EAST && d != SOUTH && d != WEST
  {
    var isNorth := BoolAsNat(d.x == 0 && d.y == 1);
    var isEast := BoolAsNat(d.x == 1 && d.y == 0);
    var isSouth := BoolAsNat(d.x == 0 && d.y == -1);
    var isWest := BoolAsNat(d.x == -1 && d.y == 0);
    isNorth * 0 + isEast * 1 + isSouth * 2 + isWest * 3
  }

  /** CardinalIndex inverts indexing into CARDINALS. */
  lemma CardinalIndexOfCardinals()
    ensures forall i :: 0 <= i < 4 ==> CardinalIndex(CARDINALS[i]) == i
  {
  }

  /** Zero, the diagonals and longer vectors all fall through to index 0. */
  lemma NonCardinalIndexIsZero(d: GridTransform)
    requires !IsCardinal(d)
    ensures CardinalIndex(d) == 0
  {
  }

  datatype Ordering = Less | Equal | Greater {
    function Reversed(): Ordering {
      match this
      case Less => Greater
      case Equal => Equal
      case Greater => Less
    }
  }

  /** `i16::cmp`. */
  function CmpI16(a: int, b: int): Ordering {
    if a < b then Less else if a == b then Equal else Greater
  }

  /** `Ord::cmp`: by x, and by y when the x coordinates agree. */
  function Cmp(a: GridTransform, b: GridTransform): (r: Ordering)
    ensures r == Equal <==> a == b
    ensures r == Less <==> a.x < b.x || (a.x == b.x && a.y < b.y)
    ensures r == Greater <==> a.x > b.x || (a.x == b.x && a.y > b.y)
  {
    match CmpI16(a.x, b.x)
    case Equal => CmpI16(a.y, b.y)
    case other => other
  }

  predicate LessOrEqual(a: GridTransform, b: GridTransform) {
    Cmp(a, b) != Greater
  }

  /** Swapping the arguments reverses the answer. */
  lemma CmpAntisymmetric(a: GridTransform, b: GridTransform)
    ensures Cmp(b, a) == Cmp(a, b).Reversed()
  {
  }

  /** The order induced by Cmp is a total order. */
  lemma CmpTotalOrder(a: GridTransform, b: GridTransform, c: GridTransform)
    ensures LessOrEqual(a, a)
    ensures LessOrEqual(a, b) || LessOrEqual(b, a)
    ensures LessOrEqual(a, b) && LessOrEqual(b, a) ==> a == b
    ensures LessOrEqual(a, b) && LessOrEqual(b, c) ==> LessOrEqual(a, c)
  {
  }

  /** A tile address of the tile-map engine: two `u32` coordinates. */
  datatype TilePos = TilePos(x: U32, y: U32)

  const NEGATIVE_TILE_POS: string := "Negative coordinates are not valid for TilePos"

  /** `TilePos::try_from`: only non-negative coordinates convert. */
  function ToTilePos(g: GridTransform): (r: Result<TilePos, string>)
    ensures r.Success? <==> g.x >= 0 && g.y >= 0
    ensures r.Success? ==> r.value.x == g.x && r.value.y == g.y
    ensures r.Failure? ==> r.error == NEGATIVE_TILE_POS
  {
    if g.x >= 0 && g.y >= 0 then Success(TilePos(g.x, g.y)) else Failure(NEGATIVE_TILE_POS)
  }

  /** A tile position that came from a grid transform converts back to it. */
  lemma TilePosRoundTrip(g: GridTransform)
    requires g.x >= 0 && g.y >= 0
    ensures ToTilePos(g).Success?
    ensures GridTransform(ToTilePos(g).value.x, ToTilePos(g).value.y) == g
  {
  }

  /** A cardinal step scaled by a count that fits in an `i16` never overflows and covers `k` tiles. */
  lemma CardinalMultFits(d: GridTransform, k: int)
    requires IsCardinal(d) && 0 <= k <= I16_MAX
    ensures CanMult(d, k)
    ensures Distance(ZERO, Mult(d, k)) == k
  {
    assert d.x * k == if d == EAST then k else if d == WEST then -k else 0;
    assert d.y * k == if d == NORTH then k else if d == SOUTH then -k else 0;
  }
}
