/**
 * Tile kinds. The Java enum `Tile` is not part of this model: only the constants
 * the generator names are listed, every other constant is `Other`, and the
 * category predicates and `variation` of a tile are supplied as a `Terrain`.
 */
module Tiles {
  import opened Wrappers

  datatype Tile =
    | BrownRock | BrownTree1 | BrownTree4
    | GreenRock | GreenTree1 | PineTree1
    | WhiteRock | WhiteTree1
    | BrownDirt | GreenDirt | WhiteDirt
    | DesertSand1 | WhiteTile1 | WhiteWall
    | Statue | StatueWhite
    | Water1 | Lava1 | Bridge
    | OutOfBounds
      /** any other constant of the enum (cosmetic variants, props) */
    | Other(id: nat)
      /** the null a freshly allocated Java `Tile[][]` holds before anything is stamped */
    | Unset

  /**
   * What the enum knows about each tile: its categories and its cosmetic
   * `variation(x, y)`, which picks a sub-sprite from the position.
   */
  datatype Terrain = Terrain(
    isGround: Tile -> bool,
    isWater: Tile -> bool,
    isSwimmable: Tile -> bool,
    isFlyable: Tile -> bool,
    isLava: Tile -> bool,
    canHideIn: Tile -> bool,
    variation: (Tile, int, int) -> Tile)

  /** The theme seeds, in the order they are placed; three families, the first two doubled. */
  const ThemeSeeds: seq<Tile> := [
    BrownRock, BrownTree1, BrownTree4, GreenRock, GreenTree1, PineTree1,
    BrownRock, BrownTree1, BrownTree4, GreenRock, GreenTree1, PineTree1,
    WhiteRock, WhiteTree1]

  /** The wall kinds a theme seed can carry: the eight distinct entries of `ThemeSeeds`. */
  predicate IsThemeWall(t: Tile) {
    t.BrownRock? || t.BrownTree1? || t.BrownTree4? || t.GreenRock? || t.GreenTree1? ||
    t.PineTree1? || t.WhiteRock? || t.WhiteTree1?
  }

  /** The ground family that goes with a wall theme; None where no case of the switch matches. */
  function GroundFor(wall: Tile): (g: Option<Tile>)
    ensures IsThemeWall(wall) <==> g.Some?
    ensures g.Some? ==> g.value in {BrownDirt, GreenDirt, WhiteDirt}
    ensures g == Some(BrownDirt) <==> wall == BrownRock || wall == BrownTree1 || wall == BrownTree4
    ensures g == Some(GreenDirt) <==> wall == GreenRock || wall == GreenTree1 || wall == PineTree1
    ensures g == Some(WhiteDirt) <==> wall == WhiteRock || wall == WhiteTree1
  {
    match wall
    case BrownRock | BrownTree1 | BrownTree4 => Some(BrownDirt)
    case GreenRock | GreenTree1 | PineTree1 => Some(GreenDirt)
    case WhiteRock | WhiteTree1 => Some(WhiteDirt)
    case _ => None
  }

  /** The table `getRandomWall` picks from (rock kinds of two families doubled). */
  const RandomWalls: seq<Tile> := [
    BrownRock, BrownTree1, BrownRock, BrownTree4, GreenRock,
    GreenTree1, GreenRock, PineTree1, WhiteRock, WhiteTree1]

  /** `getRandomWall` for the index the random source picked: always a theme wall. */
  function RandomWall(k: nat): (t: Tile)
    requires k < |RandomWalls|
    ensures IsThemeWall(t) && GroundFor(t).Some?
  {
    RandomWalls[k]
  }
}
