/** Tile addressing for the terrain engine: tile keys, the five family
    directions, the grid profile as the terrain sees it, and the rules that
    decide whether a tile expects a neighbour in a given direction. */
module Grid {

  /** An unsigned 32-bit integer: the width of tile coordinates and tile counts. */
  newtype u32 = x: int | 0 <= x < 0x1_0000_0000

  const U32_MAX: u32 := 0xFFFF_FFFF

  /** `n - 1` in unsigned arithmetic: 0 wraps round to U32_MAX. */
  function Pred(n: u32): u32
  {
    if n == 0 then U32_MAX else n - 1
  }

  /** A tile key: level of detail and grid coordinates at that level. */
  datatype TileKey = TileKey(level: u32, x: u32, y: u32)

  /** The five slots of a tile's family, in the order refreshFamily fills them. */
  datatype Direction = Parent | West | North | East | South

  /** The slot of the family array that holds direction d. */
  function SlotOf(d: Direction): (i: nat)
    ensures i < 5
  {
    match d
    case Parent => 0
    case West => 1
    case North => 2
    case East => 3
    case South => 4
  }

  /** The direction held in family slot i. */
  function DirectionAt(i: nat): (d: Direction)
    requires i < 5
    ensures SlotOf(d) == i
  {
    if i == 0 then Parent else if i == 1 then West else if i == 2 then North else if i == 3 then East else South
  }

  /** The grid profile. Tile counts per level and the parent and neighbour key
      computations belong to the profile and to TileKey; the terrain only
      calls them, so they are given here as functions. */
  datatype MapInfo = MapInfo(
    geocentric: bool,
    numTiles: u32 -> (u32, u32),
    parentKey: TileKey -> TileKey,
    neighborKey: (TileKey, Direction) -> TileKey)

  /** The key recorded in the family slot for direction d. */
  function RelativeKey(g: MapInfo, key: TileKey, d: Direction): TileKey
  {
    if d == Parent then g.parentKey(key) else g.neighborKey(key, d)
  }

  /** Whether the tile at `key` expects a relative in direction d, on a level
      with countX by countY tiles; wrapX holds for geocentric maps. The
      comparisons use unsigned `count - 1`. */
  function Expected(d: Direction, key: TileKey, countX: u32, countY: u32, wrapX: bool): bool
  {
    match d
    case Parent => true
    case West => key.x > 0 || wrapX
    case North => key.y < Pred(countY)
    case East => key.x < Pred(countX) || wrapX
    case South => key.y > 0
  }

  /** On any level with at least one tile in each dimension: the parent is
      always expected; west and east exist inside the grid or when X wraps;
      north and south exist only inside the grid, whatever wrapX says. */
  lemma ExpectedFlags(key: TileKey, countX: u32, countY: u32, wrapX: bool)
    requires countX > 0 && countY > 0
    ensures Expected(Parent, key, countX, countY, wrapX)
    ensures Expected(West, key, countX, countY, wrapX) <==> key.x > 0 || wrapX
    ensures Expected(East, key, countX, countY, wrapX) <==> key.x as int < countX as int - 1 || wrapX
    ensures Expected(North, key, countX, countY, wrapX) <==> key.y as int < countY as int - 1
    ensures Expected(South, key, countX, countY, wrapX) <==> key.y > 0
    ensures Expected(North, key, countX, countY, true) == Expected(North, key, countX, countY, false)
    ensures Expected(South, key, countX, countY, true) == Expected(South, key, countX, countY, false)
    ensures wrapX ==> Expected(West, key, countX, countY, wrapX) && Expected(East, key, countX, countY, wrapX)
  {
  }

  /** With a tile count of zero the unsigned `count - 1` wraps, so every
      coordinate below U32_MAX expects a north (or east) neighbour. */
  lemma ExpectedWithZeroCount(key: TileKey, countX: u32, wrapX: bool)
    requires key.y < U32_MAX
    ensures Expected(North, key, countX, 0, wrapX)
    ensures key.x < U32_MAX ==> Expected(East, key, 0, 0, wrapX)
  {
  }

  /** The corner tile (0, 0) of a 4 by 4 level on a projected map has a
      parent, a north and an east neighbour, and no west or south one; on a
      geocentric map its west neighbour is expected too. */
  lemma CornerOfFourByFour()
    ensures var k := TileKey(2, 0, 0);
      && Expected(Parent, k, 4, 4, false)
      && !Expected(West, k, 4, 4, false)
      && !Expected(South, k, 4, 4, false)
      && Expected(North, k, 4, 4, false)
      && Expected(East, k, 4, 4, false)
      && Expected(West, k, 4, 4, true)
  {
  }
}
